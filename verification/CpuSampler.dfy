/**
  CPU sampling: kernel handlers bump per-CPU cumulative counters while a reader
  scans them without removing anything and takes deltas.
 */
module CpuSampler {
  import opened Wrappers
  import opened Profiles
  import opened Sums
  import opened Numbers
  import opened Ordering
  import opened StackTree

  datatype Key = Key(task: Task, user: int, kernel: int)

  /** Scans of an attached sampler are at least this far apart. */
  const CADENCE_MS: nat := 250

  // ---- What one read of one counter does to the capture ----

  /** The reader's own state: cumulative totals already counted, and the capture. */
  datatype Books = Books(seen: map<Key, nat>, data: Data)

  function Get<K(==)>(m: map<K, nat>, k: K): nat { if k in m then m[k] else 0 }

  /** Counts the part of a cumulative total that was not counted before. */
  function Take(b: Books, key: Key, total: nat, user: Path, kernel: Path): Books {
    if total <= Get(b.seen, key) then b
    else
      var delta := total - Get(b.seen, key);
      Books(b.seen[key := total],
            Observed(b.data.(tasks := b.data.tasks[key.task := Get(b.data.tasks, key.task) + delta]),
                     user, kernel, delta))
  }

  /** Every counted sample is in the tree or failed, and belongs to a task. */
  ghost predicate Conserved(b: Books) {
    && b.data.root.samples + b.data.quality.failed == Total(b.seen) == Total(b.data.tasks)
    && Balanced(b.data)
  }

  lemma TakeConserves(b: Books, key: Key, total: nat, user: Path, kernel: Path)
    requires Conserved(b) && b.data.kind == Cpu
    ensures Conserved(Take(b, key, total, user, kernel)) && Take(b, key, total, user, kernel).data.kind == Cpu
    ensures var c := Take(b, key, total, user, kernel);
            && c.data.quality.attempted == b.data.quality.attempted
            && c.data.quality.mapFailures == b.data.quality.mapFailures
            && c.seen == if total > Get(b.seen, key) then b.seen[key := total] else b.seen
  {
    if total > Get(b.seen, key) {
      var delta := total - Get(b.seen, key);
      var d := b.data.(tasks := b.data.tasks[key.task := Get(b.data.tasks, key.task) + delta]);
      ObservedBalance(d, user, kernel, delta);
      TotalSet(b.seen, key, total);
      TotalSet(b.data.tasks, key.task, Get(b.data.tasks, key.task) + delta);
    }
  }

  // ---- The reader as an object ----

  /** The statistics are read before the counters. */
  function Opened(b: Books, attempted: nat, failures: nat): Books {
    b.(data := b.data.(kind := Cpu, quality := b.data.quality.(attempted := attempted, mapFailures := failures)))
  }

  /** One entry of the counter map as the iterator yields it, with the frames its stacks resolve to. */
  datatype Entry = Entry(key: Key, counts: seq<nat>, user: Path, kernel: Path)

  function TakeAll(b: Books, entries: seq<Result<Entry, ()>>): Books
    decreases |entries|
  {
    if entries == [] || entries[0].Err? then b
    else
      var e := entries[0].value;
      TakeAll(Take(b, e.key, SumSeq(e.counts), e.user, e.kernel), entries[1..])
  }

  // ---- What the readings of the counters say ----

  /** The stack of a reading: user frames first, the kernel frames last and under a marker. */
  function Stacked(e: Entry): Path { e.user + if e.kernel == [] then [] else ["[kernel]"] + e.kernel }

  /** What a capture reports: counts of a path or at its end, of a task, and of the sorts of stacks. */
  datatype Measure =
    | Under(path: Path) | Ending(path: Path) | OfTask(task: Task)
    | User | Kernel | OneSided | Failed | Deep | Short | Unresolved

  function Reported(d: Data, m: Measure): nat {
    match m
    case Under(p) => Samples(d.root, p)
    case Ending(p) => OwnAt(d.root, p)
    case OfTask(t) => Get(d.tasks, t)
    case User => d.quality.userStacks
    case Kernel => d.quality.kernelStacks
    case OneSided => d.quality.partial
    case Failed => d.quality.failed
    case Deep => d.quality.depthLimit
    case Short => d.shallow
    case Unresolved => d.unresolved
  }

  /** The frame was not resolved: its record, or else its identity, is an address. */
  predicate Bare(raw: map<string, string>, f: string) {
    var text := if f in raw then raw[f] else f;
    |text| >= 2 && text[0] == '0' && text[1] == 'x'
  }

  /** A reading counts for a measure. */
  predicate Measures(raw: map<string, string>, e: Entry, m: Measure) {
    match m
    case Under(p) => Stacked(e) != [] && p <= Stacked(e)
    case Ending(p) => Stacked(e) != [] && p == Stacked(e)
    case OfTask(t) => e.key.task == t
    case User => |e.user| > 0
    case Kernel => |e.kernel| > 0
    case OneSided => (|e.user| > 0 && |e.kernel| == 0) || (|e.user| == 0 && |e.kernel| > 0)
    case Failed => |e.user| == 0 && |e.kernel| == 0
    case Deep => |e.user| == 127 || |e.kernel| == 127
    case Short => |e.user| == 1 || |e.user| == 2
    case Unresolved => exists f :: f in Stacked(e) && Bare(raw, f)
  }

  /** The highest total read of a counter. */
  function Highest(es: seq<Entry>, k: Key): nat {
    if es == [] then 0
    else
      var e := es[|es| - 1];
      Max(Highest(es[..|es| - 1], k), if e.key == k then SumSeq(e.counts) else 0)
  }

  /** By how much the last reading exceeds what was read of its counter before. */
  function Growth(es: seq<Entry>): nat
    requires es != []
  {
    var e := es[|es| - 1];
    SaturatingSub(SumSeq(e.counts), Highest(es[..|es| - 1], e.key))
  }

  /** The growth of all readings that count for a measure. */
  function Growths(raw: map<string, string>, es: seq<Entry>, m: Measure): nat {
    if es == [] then 0
    else Growths(raw, es[..|es| - 1], m) + if Measures(raw, es[|es| - 1], m) then Growth(es) else 0
  }

  /** The books say what was read: totals counter by counter, and every measure as the growth that counts for it. */
  ghost predicate Agrees(b: Books, es: seq<Entry>) {
    && Valid(b.data.root) && Positive(b.data.root)
    && (forall k :: Get(b.seen, k) == Highest(es, k))
    && forall m :: Reported(b.data, m) == Growths(b.data.raw, es, m)
  }

  lemma FreshAgrees(b: Books)
    requires b.seen == map[] && Fresh(b.data)
    ensures Agrees(b, [])
  {
    forall m ensures Reported(b.data, m) == 0 {
      if m.Under? && m.path != [] { assert At(b.data.root, m.path).None?; }
      if m.Ending? && m.path != [] { assert At(b.data.root, m.path).None?; }
    }
  }

  lemma AddressBare(raw: map<string, string>, f: string)
    ensures Address(raw, f) <==> Bare(raw, f)
  {
  }

  lemma JoinedStacked(raw: map<string, string>, e: Entry)
    ensures Joined(e.user, e.kernel) == Stacked(e)
    ensures AnyAddress(raw, Joined(e.user, e.kernel)) <==> exists f :: f in Stacked(e) && Bare(raw, f)
  {
    hide Address, Bare;
    assert Joined(e.user, e.kernel) == Stacked(e);
    forall f ensures Address(raw, f) <==> Bare(raw, f) { AddressBare(raw, f); }
  }

  /** The stack of one more reading goes to its own path, and nowhere else. */
  lemma RecordedMeasure(raw: map<string, string>, root: Node, e: Entry, w: nat, m: Measure)
    requires Valid(root) && Positive(root) && w > 0 && (m.Under? || m.Ending?)
    ensures var r := Record(root, Stack(Stacked(e), w));
            var add := if Measures(raw, e, m) then w else 0;
            && Valid(r) && Positive(r)
            && (m.Under? ==> Samples(r, m.path) == Samples(root, m.path) + add)
            && (m.Ending? ==> OwnAt(r, m.path) == OwnAt(root, m.path) + add)
  {
    hide Stacked, Samples, OwnAt, Insert, Valid, Positive;
    if Stacked(e) != [] {
      InsertValid(root, Stacked(e), w);
      InsertSamples(root, Stacked(e), w, m.path);
      InsertOwn(root, Stacked(e), w, m.path);
    }
  }

  lemma ObservedMeasure(d: Data, e: Entry, w: nat, m: Measure)
    requires Valid(d.root) && Positive(d.root) && w > 0 && d.kind == Cpu
    ensures var task := e.key.task;
            var o := Observed(d.(tasks := d.tasks[task := Get(d.tasks, task) + w]), e.user, e.kernel, w);
            && o.raw == d.raw && o.kind == d.kind && Valid(o.root) && Positive(o.root)
            && Reported(o, m) == Reported(d, m) + if Measures(d.raw, e, m) then w else 0
  {
    JoinedStacked(d.raw, e);
    RecordedMeasure(d.raw, d.root, e, w, if m.Under? || m.Ending? then m else Under([]));
    hide Joined, Stacked, AnyAddress, Record, Valid, Positive, Samples, OwnAt, Bare;
  }

  lemma GrowthsNext(raw: map<string, string>, es: seq<Entry>, e: Entry, m: Measure)
    ensures Growths(raw, es + [e], m) == Growths(raw, es, m) + if Measures(raw, e, m) then Growth(es + [e]) else 0
    ensures Growth(es + [e]) == SaturatingSub(SumSeq(e.counts), Highest(es, e.key))
  {
    hide Measures, SumSeq, Highest;
    assert (es + [e])[..|es + [e]| - 1] == es;
  }

  lemma HighestNext(es: seq<Entry>, e: Entry, k: Key)
    ensures Highest(es + [e], k) == Max(Highest(es, k), if e.key == k then SumSeq(e.counts) else 0)
  {
    hide SumSeq;
    assert (es + [e])[..|es + [e]| - 1] == es;
  }

  /** Taking one reading keeps the books in agreement. */
  lemma TakeAgrees(b: Books, es: seq<Entry>, e: Entry)
    requires Agrees(b, es) && b.data.kind == Cpu
    ensures var c := Take(b, e.key, SumSeq(e.counts), e.user, e.kernel);
            Agrees(c, es + [e]) && c.data.kind == Cpu && c.data.raw == b.data.raw
  {
    hide Observed, SumSeq, Measures, Reported, Highest, Growth, Growths, Valid, Positive;
    var total := SumSeq(e.counts);
    var c := Take(b, e.key, total, e.user, e.kernel);
    ObservedKeeps(b, e, total);
    forall k ensures Get(c.seen, k) == Highest(es + [e], k) {
      HighestNext(es, e, k);
    }
    forall m ensures Reported(c.data, m) == Growths(c.data.raw, es + [e], m) {
      GrowthsNext(b.data.raw, es, e, m);
      if total > Get(b.seen, e.key) { ObservedMeasure(b.data, e, total - Get(b.seen, e.key), m); }
    }
  }

  lemma ObservedKeeps(b: Books, e: Entry, total: nat)
    requires Valid(b.data.root) && Positive(b.data.root) && b.data.kind == Cpu
    ensures var c := Take(b, e.key, total, e.user, e.kernel);
            c.data.kind == Cpu && c.data.raw == b.data.raw && Valid(c.data.root) && Positive(c.data.root)
  {
    hide Observed, Valid, Positive, Reported, Measures;
    if total > Get(b.seen, e.key) { ObservedMeasure(b.data, e, total - Get(b.seen, e.key), User); }
  }

  /** The entries handed out before the first that cannot be read. */
  function Handed(entries: seq<Result<Entry, ()>>): seq<Entry> {
    if entries == [] || entries[0].Err? then [] else [entries[0].value] + Handed(entries[1..])
  }

  lemma {:induction false} TakeAllAgrees(b: Books, es: seq<Entry>, entries: seq<Result<Entry, ()>>)
    requires Agrees(b, es) && b.data.kind == Cpu
    ensures var c := TakeAll(b, entries);
            Agrees(c, es + Handed(entries)) && c.data.kind == Cpu && c.data.raw == b.data.raw
    decreases |entries|
  {
    hide Agrees, Take, SumSeq;
    if entries == [] || entries[0].Err? {
      assert es + [] == es;
    } else {
      var e := entries[0].value;
      TakeAgrees(b, es, e);
      TakeAllAgrees(Take(b, e.key, SumSeq(e.counts), e.user, e.kernel), es + [e], entries[1..]);
      assert es + [e] + Handed(entries[1..]) == es + ([e] + Handed(entries[1..]));
    }
  }

  /** Kind and statistics are no measure. */
  lemma SameAgrees(b: Books, c: Books)
    requires b.seen == c.seen
    requires var q := c.data.quality;
             c.data == b.data.(kind := c.data.kind, quality :=
                               b.data.quality.(attempted := q.attempted, mapFailures := q.mapFailures))
    ensures forall es :: Agrees(b, es) ==> Agrees(c, es + [])
  {
    hide Growths, Highest, Valid, Positive;
    forall m ensures Reported(c.data, m) == Reported(b.data, m) {
    }
    forall es | Agrees(b, es) ensures Agrees(c, es + []) {
      assert es + [] == es;
    }
  }

  lemma ScanAgrees(b: Books, attempted: nat, failures: nat, entries: seq<Result<Entry, ()>>)
    ensures forall es :: Agrees(b, es) ==>
              Agrees(TakeAll(Opened(b, attempted, failures), entries), es + Handed(entries))
  {
    hide Agrees, TakeAll, Handed;
    var o := Opened(b, attempted, failures);
    SameAgrees(b, o);
    forall es | Agrees(b, es) ensures Agrees(TakeAll(o, entries), es + Handed(entries)) {
      assert es + [] == es;
      TakeAllAgrees(o, es, entries);
    }
  }

  class Sampler {
    var seen: map<Key, nat>
    var lastScan: Option<nat>
    var links: set<nat>
    var finished: bool
    const profile: Profile

    constructor (profile: Profile, cpus: set<nat>)
      ensures seen == map[] && lastScan == None && links == cpus && !finished && this.profile == profile
    {
      seen, lastScan, links, finished := map[], None, cpus, false;
      this.profile := profile;
    }

    method Finish()
      modifies this`links, this`finished
      ensures links == {} && finished
    {
      links, finished := {}, true;
    }

    /**
      Before every scan, at once: stop when the target is gone, else follow the online CPUs. A call to the host can
      fail; `fault` is then what stays attached of the CPUs. Stopping gives up every link before it detaches.
     */
    method FollowHost(targetAlive: bool, online: set<nat>, fault: Option<set<nat>>) returns (ok: bool)
      modifies this`links, this`finished
      ensures ok == (old(finished) || fault.None?)
      ensures finished == (old(finished) || (!targetAlive && fault.None?))
      ensures links == if old(finished) then old(links)
                       else if !targetAlive then {} else if fault.Some? then fault.value else online
    {
      ok := true;
      if !finished {
        if !targetAlive {
          if fault.Some? {
            links := {};
            return false;
          }
          Finish();
        } else if fault.Some? {
          links := fault.value;
          return false;
        } else {
          links := links * online + (online - links);
        }
      }
    }

    /** Attached, and scanned less than the cadence ago. */
    predicate TooSoon(now: nat)
      reads this
    {
      !finished && lastScan.Some? && now < lastScan.value + CADENCE_MS
    }

    /** One poll: rate limited while attached, then one pass over the statistics and every counter. */
    method Poll(now: nat, targetAlive: bool, online: set<nat>, fault: Option<set<nat>>, attempted: Result<seq<nat>, ()>,
                failures: Result<seq<nat>, ()>, entries: seq<Result<Entry, ()>>) returns (ok: bool)
      modifies this, profile
      ensures finished == (old(finished) || (!targetAlive && fault.None?))
      ensures links == if old(finished) then old(links)
                       else if !targetAlive then {} else if fault.Some? then fault.value else online
      ensures !old(finished) && fault.Some? ==>
                !ok && seen == old(seen) && lastScan == old(lastScan) && profile.data == old(profile.data)
      ensures (old(finished) || fault.None?) && !finished && old(lastScan).Some? &&
              now < old(lastScan).value + 250 ==>
                ok && seen == old(seen) && lastScan == old(lastScan) && profile.data == old(profile.data)
      ensures old(finished) ||
              (fault.None? && (finished || old(lastScan).None? || now >= old(lastScan).value + 250)) ==>
                && lastScan == Some(now)
                && (attempted.Ok? && failures.Ok? ==>
                     Books(seen, profile.data) ==
                     TakeAll(Opened(old(Books(seen, profile.data)), SumSeq(attempted.value), SumSeq(failures.value)),
                             entries))
                && (attempted.Err? ==> seen == old(seen) && profile.data == old(profile.data).(kind := Cpu))
                && (attempted.Ok? && failures.Err? ==>
                     var d := old(profile.data);
                     && seen == old(seen)
                     && profile.data == d.(kind := Cpu, quality := d.quality.(attempted := SumSeq(attempted.value))))
                && (ok <==> attempted.Ok? && failures.Ok? && forall i :: 0 <= i < |entries| ==> entries[i].Ok?)
      ensures var due := old(finished) || (fault.None? && (finished || old(lastScan).None?
                                                           || now >= old(lastScan).value + 250));
              forall es :: Agrees(old(Books(seen, profile.data)), es) ==>
                Agrees(Books(seen, profile.data),
                       es + if due && attempted.Ok? && failures.Ok? then Handed(entries) else [])
    {
      hide Agrees, Handed, SumSeq;
      ghost var b := Books(seen, profile.data);
      SameAgrees(b, b);
      var followed := FollowHost(targetAlive, online, fault);
      if !followed { return false; }
      if TooSoon(now) { return true; }
      lastScan := Some(now);
      profile.data := profile.data.(kind := Cpu);
      SameAgrees(b, Books(seen, profile.data));
      if attempted.Err? { return false; }
      profile.data := profile.data.(quality := profile.data.quality.(attempted := SumSeq(attempted.value)));
      SameAgrees(b, Books(seen, profile.data));
      if failures.Err? { return false; }
      profile.data := profile.data.(quality := profile.data.quality.(mapFailures := SumSeq(failures.value)));
      ScanAgrees(b, SumSeq(attempted.value), SumSeq(failures.value), entries);
      ok := Scan(entries);
    }

    /** One counter: only what grew since the last read is counted. */
    method TakeOne(e: Entry)
      modifies this`seen, profile
      ensures Books(seen, profile.data) ==
              Take(old(Books(seen, profile.data)), e.key, SumSeq(e.counts), e.user, e.kernel)
    {
      hide Observed, SumSeq;
      var total := SumSeq(e.counts);
      var before := Get(seen, e.key);
      var delta := if total >= before then total - before else 0;
      if delta == 0 {
        return;
      }
      seen := seen[e.key := total];
      var task := e.key.task;
      profile.data := profile.data.(tasks := profile.data.tasks[task := Get(profile.data.tasks, task) + delta]);
      profile.Observe(e.user, e.kernel, delta);
    }

    method Scan(entries: seq<Result<Entry, ()>>) returns (ok: bool)
      modifies this`seen, profile
      ensures Books(seen, profile.data) == TakeAll(old(Books(seen, profile.data)), entries)
      ensures ok <==> forall i :: 0 <= i < |entries| ==> entries[i].Ok?
    {
      ghost var start := Books(seen, profile.data);
      for i := 0 to |entries|
        invariant TakeAll(Books(seen, profile.data), entries[i..]) == TakeAll(start, entries)
        invariant forall j :: 0 <= j < i ==> entries[j].Ok?
      {
        if entries[i].Err? {
          return false;
        }
        assert entries[i..][1..] == entries[i + 1..];
        TakeOne(entries[i].value);
      }
      return true;
    }
  }
}
