/**
  Pairing trace events: what one event does to the tables of open threads and CPUs,
  to the windows of latencies and to the counters.
 */
module Correlation {
  import opened Wrappers

  // ---- Events ----

  /** A trace event with its payload fields; an absent field is None. `soft` tells soft interrupts from hard ones. */
  datatype What =
    | Wakeup(woken: Option<nat>)
    | Switch(next: Option<nat>, start: Option<nat>, prev: Option<nat>, runnable: bool, cgroup: Option<nat>)
    | Migrate(moved: Option<nat>, group: Option<nat>, dest: Option<nat>)
    | Exit(gone: Option<nat>)
    | Enter(call: Option<nat>)
    | Leave(failed: bool, errno: Option<nat>)
    | IrqEnter(soft: bool, vector: nat)
    | IrqLeave(soft: bool)
    | Other

  /** What the correlator is told: an event, or that n events were lost. */
  datatype Input = Event(at: nat, cpu: nat, pid: nat, what: What) | Lost(n: nat)

  // ---- State ----

  type Window = seq<real>

  /** A latency window holds this many samples. */
  const CAP: nat := 4096
  const TABLE_LIMIT: nat := 16384
  const GROUP_LIMIT: nat := 512
  const CALLER_LIMIT: nat := 64
  /** Hard interrupt vectors are numbered from here. */
  const HARD: nat := 1000000

  datatype Sched = Sched(starts: map<nat, nat>, off: map<nat, nat>, offMs: map<nat, Window>,
                         wake: map<nat, nat>, wakeMs: map<nat, Window>, wakeCpu: map<nat, Window>,
                         wakeGroup: map<nat, Window>)

  datatype Calls = Calls(open: map<nat, (nat, nat)>, count: map<nat, nat>, ms: map<nat, Window>, errors: map<nat, nat>,
                         errnos: map<(nat, nat), nat>, callers: map<nat, map<nat, nat>>)

  datatype Irqs = Irqs(open: map<(nat, bool), (nat, nat)>, ns: map<(nat, nat), nat>, ms: map<nat, Window>)

  datatype Moves = Moves(switches: map<nat, nat>, tasks: map<nat, nat>, groups: map<nat, nat>, cpus: map<nat, nat>)

  datatype State = State(sched: Sched, calls: Calls, irqs: Irqs, moves: Moves, lost: nat, paired: nat)

  function Ms(ns: nat): real { ns as real / 1000000.0 }

  /** A full window drops its oldest sample. */
  function Push(w: Window, v: real): Window { if |w| >= CAP then w[1..] + [v] else w + [v] }

  function Samples(m: map<nat, Window>, k: nat): Window { if k in m then m[k] else [] }

  function Pushed(m: map<nat, Window>, k: nat, ns: nat): map<nat, Window> { m[k := Push(Samples(m, k), Ms(ns))] }

  function Plus<K>(m: map<K, nat>, k: K, n: nat): map<K, nat> { m[k := (if k in m then m[k] else 0) + n] }

  function Orelse<K>(m: map<K, nat>, k: K, v: nat): map<K, nat> { if k in m then m else m[k := v] }

  // ---- Scheduling ----

  function Woken(c: Sched, p: nat, at: nat): Sched { c.(wake := Orelse(c.wake, p, at)) }

  /** The thread switched in has another start time than the one known under its number. */
  predicate Renewed(c: Sched, p: nat, start: Option<nat>) {
    start.Some? && start.value > 0 && p in c.starts && c.starts[p] != start.value
  }

  function Started(c: Sched, p: nat, start: Option<nat>): Sched {
    var d := if Renewed(c, p, start)
             then c.(wake := c.wake - {p}, wakeMs := c.wakeMs - {p}, off := c.off - {p}, offMs := c.offMs - {p})
             else c;
    if start.Some? && start.value > 0 then d.(starts := d.starts[p := start.value]) else d
  }

  function BackOn(c: Sched, p: nat, at: nat): Sched {
    if p !in c.off then c
    else if at < c.off[p] then c.(off := c.off - {p})
    else c.(off := c.off - {p}, offMs := Pushed(c.offMs, p, at - c.off[p]))
  }

  function GoneOff(c: Sched, prev: Option<nat>, at: nat): Sched {
    if prev.Some? && prev.value != 0 then c.(off := c.off[prev.value := at]) else c
  }

  /** A wakeup is answered: whether this pairs it. */
  predicate Answers(c: Sched, p: nat, at: nat) { p in c.wake && c.wake[p] <= at }

  predicate GroupTaken(c: Sched, group: Option<nat>) {
    group.Some? && group.value != 0 && (|c.wakeGroup| < GROUP_LIMIT || group.value in c.wakeGroup)
  }

  function Logged(c: Sched, p: nat, ns: nat, cpu: nat, group: Option<nat>): Sched {
    c.(wakeMs := Pushed(c.wakeMs, p, ns), wakeCpu := Pushed(c.wakeCpu, cpu, ns),
       wakeGroup := if GroupTaken(c, group) then Pushed(c.wakeGroup, group.value, ns) else c.wakeGroup)
  }

  function Running(c: Sched, p: nat, at: nat, cpu: nat, group: Option<nat>): Sched {
    if p !in c.wake then c
    else if at < c.wake[p] then c.(wake := c.wake - {p})
    else Logged(c.(wake := c.wake - {p}), p, at - c.wake[p], cpu, group)
  }

  function Preempted(c: Sched, prev: Option<nat>, runnable: bool, at: nat): Sched {
    if runnable && prev.Some? && prev.value != 0 then Woken(c, prev.value, at) else c
  }

  /** The scheduler's tables just before the thread switched in is looked up as a waiter. */
  function Switching(c: Sched, w: What, at: nat): Sched
    requires w.Switch?
  {
    GoneOff(if w.next.Some? then BackOn(Started(c, w.next.value, w.start), w.next.value, at) else c, w.prev, at)
  }

  function Switched(c: Sched, w: What, at: nat, cpu: nat): Sched
    requires w.Switch?
  {
    var d := Switching(c, w, at);
    Preempted(if w.next.Some? then Running(d, w.next.value, at, cpu, w.cgroup) else d, w.prev, w.runnable, at)
  }

  function SchedExit(c: Sched, p: nat): Sched {
    c.(wake := c.wake - {p}, wakeMs := c.wakeMs - {p}, starts := c.starts - {p}, off := c.off - {p},
       offMs := c.offMs - {p})
  }

  // ---- System calls and interrupts ----

  function Called(c: Calls, pid: nat, at: nat, call: Option<nat>): Calls {
    if call.None? then c else c.(open := c.open[pid := (at, call.value)])
  }

  predicate Returns(c: Calls, pid: nat, at: nat) { pid in c.open && c.open[pid].0 <= at }

  function Caller(m: map<nat, map<nat, nat>>, id: nat, pid: nat): map<nat, map<nat, nat>> {
    var callers := if id in m then m[id] else map[];
    m[id := if |callers| < CALLER_LIMIT || pid in callers then Plus(callers, pid, 1) else callers]
  }

  function Returned(c: Calls, pid: nat, at: nat, failed: bool, errno: Option<nat>): Calls {
    if pid !in c.open then c
    else if at < c.open[pid].0 then c.(open := c.open - {pid})
    else
      var id := c.open[pid].1;
      c.(open := c.open - {pid}, count := Plus(c.count, id, 1), ms := Pushed(c.ms, id, at - c.open[pid].0),
         errors := if failed then Plus(c.errors, id, 1) else c.errors,
         errnos := if errno.Some? then Plus(c.errnos, (id, errno.value), 1) else c.errnos,
         callers := Caller(c.callers, id, pid))
  }

  function VectorKey(id: nat, soft: bool): nat { if soft then id else id + HARD }

  predicate Finishes(c: Irqs, cpu: nat, soft: bool, at: nat) {
    (cpu, soft) in c.open && c.open[(cpu, soft)].0 <= at
  }

  function Finished(c: Irqs, cpu: nat, soft: bool, at: nat): Irqs {
    if (cpu, soft) !in c.open then c
    else if at < c.open[(cpu, soft)].0 then c.(open := c.open - {(cpu, soft)})
    else
      var ns := at - c.open[(cpu, soft)].0;
      var key := VectorKey(c.open[(cpu, soft)].1, soft);
      c.(open := c.open - {(cpu, soft)}, ns := Plus(c.ns, (cpu, key), ns), ms := Pushed(c.ms, key, ns))
  }

  // ---- One input ----

  function Moved(m: Moves, w: What): Moves
    requires w.Migrate?
  {
    m.(tasks := if w.moved.Some? then Plus(m.tasks, w.moved.value, 1) else m.tasks,
       groups := if w.group.Some? && w.group.value != 0 then Plus(m.groups, w.group.value, 1) else m.groups,
       cpus := if w.dest.Some? then Plus(m.cpus, w.dest.value, 1) else m.cpus)
  }

  /** The thread an exit is about: the payload's, or else the event's. */
  function Gone(e: Input): nat
    requires e.Event? && e.what.Exit?
  {
    if e.what.gone.Some? then e.what.gone.value else e.pid
  }

  function One(b: bool): nat { if b then 1 else 0 }

  function Handled(s: State, e: Input): State
    requires e.Event?
  {
    match e.what
    case Wakeup(p) => if p.Some? then s.(sched := Woken(s.sched, p.value, e.at)) else s
    case Switch(next, _, _, _, _) =>
      s.(sched := Switched(s.sched, e.what, e.at, e.cpu),
         moves := s.moves.(switches := Plus(s.moves.switches, e.cpu, 1)),
         paired := s.paired + One(next.Some? && Answers(Switching(s.sched, e.what, e.at), next.value, e.at)))
    case Migrate(_, _, _) => s.(moves := Moved(s.moves, e.what))
    case Exit(_) =>
      s.(sched := SchedExit(s.sched, Gone(e)), calls := s.calls.(open := s.calls.open - {Gone(e)}),
         moves := s.moves.(tasks := s.moves.tasks - {Gone(e)}))
    case Enter(call) => s.(calls := Called(s.calls, e.pid, e.at, call))
    case Leave(failed, errno) =>
      s.(calls := Returned(s.calls, e.pid, e.at, failed, errno),
         paired := s.paired + One(Returns(s.calls, e.pid, e.at)))
    case IrqEnter(soft, id) => s.(irqs := s.irqs.(open := s.irqs.open[(e.cpu, soft) := (e.at, id)]))
    case IrqLeave(soft) =>
      s.(irqs := Finished(s.irqs, e.cpu, soft, e.at), paired := s.paired + One(Finishes(s.irqs, e.cpu, soft, e.at)))
    case Other => s
  }

  /** Losing events closes nothing and forgets everything open. */
  function Lose(s: State, n: nat): State {
    s.(lost := s.lost + n, sched := s.sched.(wake := map[], off := map[]), calls := s.calls.(open := map[]),
       irqs := s.irqs.(open := map[]))
  }

  function BoundMoves(s: State): State {
    if |s.moves.tasks| > TABLE_LIMIT || |s.moves.groups| > GROUP_LIMIT
    then Lose(s.(moves := s.moves.(tasks := map[], groups := map[])), 1) else s
  }

  function BoundStarts(s: State): State {
    if |s.sched.starts| > TABLE_LIMIT then Lose(s.(sched := s.sched.(starts := map[])), 1) else s
  }

  function BoundOffMs(s: State): State {
    if |s.sched.offMs| > CAP then Lose(s.(sched := s.sched.(offMs := map[])), 1) else s
  }

  function BoundWakeMs(s: State): State {
    if |s.sched.wakeMs| > CAP then Lose(s.(sched := s.sched.(wakeMs := map[])), 1) else s
  }

  function BoundOpen(s: State): State {
    if |s.sched.wake| > TABLE_LIMIT || |s.calls.open| > TABLE_LIMIT || |s.sched.off| > TABLE_LIMIT
    then Lose(s, 1) else s
  }

  function Bounded(s: State): State { BoundOpen(BoundWakeMs(BoundOffMs(BoundStarts(BoundMoves(s))))) }

  function Step(s: State, e: Input): State {
    if e.Lost? then Lose(s, e.n) else Bounded(Handled(s, e))
  }

  /** An overflowing table counts as one lost event. */
  predicate Cut(s: State, e: Input) { e.Lost? || Bounded(Handled(s, e)).lost > s.lost }

  // ---- Who waits for what ----

  /** A thread waiting to run, a thread off its CPU, a thread in a system call, or a CPU in an interrupt. */
  datatype Key = Waiting(pid: nat) | Sleeping(pid: nat) | Calling(pid: nat) | Interrupted(cpu: nat, soft: bool)

  /** The time at which the open interval of a key began. */
  function Opened(s: State, k: Key): Option<nat> {
    match k
    case Waiting(p) => if p in s.sched.wake then Some(s.sched.wake[p]) else None
    case Sleeping(p) => if p in s.sched.off then Some(s.sched.off[p]) else None
    case Calling(p) => if p in s.calls.open then Some(s.calls.open[p].0) else None
    case Interrupted(cpu, soft) => if (cpu, soft) in s.irqs.open then Some(s.irqs.open[(cpu, soft)].0) else None
  }

  predicate Opens(e: Input, k: Key) {
    e.Event? &&
    match k
    case Waiting(p) =>
      || (e.what.Wakeup? && e.what.woken == Some(p))
      || (e.what.Switch? && e.what.runnable && e.what.prev == Some(p) && p != 0)
    case Sleeping(p) => e.what.Switch? && e.what.prev == Some(p) && p != 0
    case Calling(p) => e.what.Enter? && e.what.call.Some? && e.pid == p
    case Interrupted(cpu, soft) => e.what.IrqEnter? && e.cpu == cpu && e.what.soft == soft
  }

  predicate Closes(e: Input, k: Key) {
    e.Event? &&
    match k
    case Waiting(p) => e.what.Switch? && e.what.next == Some(p)
    case Sleeping(p) => e.what.Switch? && e.what.next == Some(p)
    case Calling(p) => e.what.Leave? && e.pid == p
    case Interrupted(cpu, soft) => e.what.IrqLeave? && e.cpu == cpu && e.what.soft == soft
  }

  /** The thread of a key exits. */
  predicate Exits(e: Input, k: Key) { !k.Interrupted? && e.Event? && e.what.Exit? && Gone(e) == k.pid }

  /** The interval of a key is closed by another thread under the same number. */
  predicate Reused(s: State, e: Input, k: Key) {
    && (k.Waiting? || k.Sleeping?) && e.Event? && e.what.Switch?
    && e.what.next == Some(k.pid) && Renewed(s.sched, k.pid, e.what.start)
  }

  /** The latency, in nanoseconds, that an event records for a key. */
  function Recorded(s: State, e: Input, k: Key): Option<nat> {
    if Closes(e, k) && !Reused(s, e, k) && Opened(s, k).Some? && Opened(s, k).value <= e.at
    then Some(e.at - Opened(s, k).value) else None
  }

  // ---- What one input does to an open interval ----

  /** Handling an event: a waiting thread keeps its first wakeup, the others their last opening. */
  function Reopened(s: State, e: Input, k: Key): Option<nat>
    requires e.Event?
  {
    if Opens(e, k) && (!k.Waiting? || Opened(s, k).None? || Closes(e, k)) then Some(e.at)
    else if Closes(e, k) || Exits(e, k) then None
    else Opened(s, k)
  }

  function Found(m: map<nat, nat>, p: nat): Option<nat> { if p in m then Some(m[p]) else None }

  lemma StartedOpen(c: Sched, q: nat, start: Option<nat>, p: nat)
    ensures Found(Started(c, q, start).wake, p) == if p == q && Renewed(c, q, start) then None else Found(c.wake, p)
    ensures p != q ==> Found(Started(c, q, start).off, p) == Found(c.off, p)
  {
  }

  lemma BackOnWake(c: Sched, q: nat, at: nat)
    ensures BackOn(c, q, at).wake == c.wake
  {
    hide Pushed;
  }

  lemma BackOnOff(c: Sched, q: nat, at: nat, p: nat)
    ensures Found(BackOn(c, q, at).off, p) == if p == q then None else Found(c.off, p)
  {
    hide Pushed;
  }

  /** The thread switched in: its wakeup survives unless its number was reused. */
  lemma SwitchingOpen(c: Sched, w: What, at: nat, p: nat)
    requires w.Switch?
    ensures Found(Switching(c, w, at).wake, p) ==
            if w.next == Some(p) && Renewed(c, p, w.start) then None else Found(c.wake, p)
  {
    hide Started, BackOn, Renewed;
    if w.next.Some? {
      StartedOpen(c, w.next.value, w.start, p);
      BackOnWake(Started(c, w.next.value, w.start), w.next.value, at);
    }
  }

  lemma SwitchingOff(c: Sched, w: What, at: nat, p: nat)
    requires w.Switch?
    ensures Found(Switching(c, w, at).off, p) ==
            if p != 0 && w.prev == Some(p) then Some(at) else if w.next == Some(p) then None else Found(c.off, p)
  {
    hide Started, BackOn, Renewed;
    if w.next.Some? {
      StartedOpen(c, w.next.value, w.start, p);
      BackOnOff(Started(c, w.next.value, w.start), w.next.value, at, p);
    }
  }

  lemma RunningOpen(c: Sched, q: nat, at: nat, cpu: nat, group: Option<nat>, p: nat)
    ensures Running(c, q, at, cpu, group).off == c.off
    ensures Found(Running(c, q, at, cpu, group).wake, p) == if p == q then None else Found(c.wake, p)
  {
    hide Pushed, GroupTaken;
  }

  lemma SwitchedOff(c: Sched, w: What, at: nat, cpu: nat, p: nat)
    requires w.Switch?
    ensures Switched(c, w, at, cpu).off == Switching(c, w, at).off
  {
    hide Switching, Running;
    if w.next.Some? { RunningOpen(Switching(c, w, at), w.next.value, at, cpu, w.cgroup, p); }
  }

  lemma SwitchedWake(c: Sched, w: What, at: nat, cpu: nat, p: nat)
    requires w.Switch?
    ensures var before := if w.next == Some(p) then None else Found(c.wake, p);
            Found(Switched(c, w, at, cpu).wake, p) ==
            if w.runnable && w.prev == Some(p) && p != 0 && before.None? then Some(at) else before
  {
    hide Switching, Running;
    SwitchingOpen(c, w, at, p);
    if w.next.Some? { RunningOpen(Switching(c, w, at), w.next.value, at, cpu, w.cgroup, p); }
  }

  lemma WaitingHandled(s: State, e: Input, p: nat)
    requires e.Event?
    ensures Opened(Handled(s, e), Waiting(p)) == Reopened(s, e, Waiting(p))
  {
    hide Returned, Finished, Moved, Switched, Switching;
    if e.what.Switch? { SwitchedWake(s.sched, e.what, e.at, e.cpu, p); }
  }

  lemma SleepingHandled(s: State, e: Input, p: nat)
    requires e.Event?
    ensures Opened(Handled(s, e), Sleeping(p)) == Reopened(s, e, Sleeping(p))
  {
    hide Returned, Finished, Moved, Switched, Switching;
    if e.what.Switch? {
      SwitchedOff(s.sched, e.what, e.at, e.cpu, p);
      SwitchingOff(s.sched, e.what, e.at, p);
    }
  }

  lemma CallingHandled(s: State, e: Input, p: nat)
    requires e.Event?
    ensures Opened(Handled(s, e), Calling(p)) == Reopened(s, e, Calling(p))
  {
    hide Switched, Finished, Moved;
  }

  lemma InterruptedHandled(s: State, e: Input, cpu: nat, soft: bool)
    requires e.Event?
    ensures Opened(Handled(s, e), Interrupted(cpu, soft)) == Reopened(s, e, Interrupted(cpu, soft))
  {
    hide Switched, Returned, Moved;
  }

  lemma KeyHandled(s: State, e: Input, k: Key)
    requires e.Event?
    ensures Opened(Handled(s, e), k) == Reopened(s, e, k)
  {
    hide Handled, Opened, Reopened;
    match k {
      case Waiting(p) => WaitingHandled(s, e, p);
      case Sleeping(p) => SleepingHandled(s, e, p);
      case Calling(p) => CallingHandled(s, e, p);
      case Interrupted(cpu, soft) => InterruptedHandled(s, e, cpu, soft);
    }
  }

  /** Bounding either changes no open interval, or loses an event and forgets all of them. */
  lemma BoundedOpen(s: State, k: Key)
    ensures Opened(Bounded(s), k) == if Bounded(s).lost > s.lost then None else Opened(s, k)
    ensures Bounded(s).lost >= s.lost && Bounded(s).paired == s.paired
  {
  }

  lemma HandledLost(s: State, e: Input)
    requires e.Event?
    ensures Handled(s, e).lost == s.lost
  {
    hide Switched, Returned, Finished, Moved;
  }

  /** One input, for one key. */
  lemma KeyStep(s: State, e: Input, k: Key)
    ensures Opened(Step(s, e), k) == if Cut(s, e) then None else Reopened(s, e, k)
  {
    hide Handled, Bounded, Reopened;
    if e.Event? {
      hide Opened;
      KeyHandled(s, e, k);
      HandledLost(s, e);
      BoundedOpen(Handled(s, e), k);
    }
  }

  // ---- What one input does to a window of latencies ----

  datatype Ledger =
    WakeMs(pid: nat) | WakeCpu(cpu: nat) | WakeGroup(id: nat) | OffMs(pid: nat) | CallMs(id: nat) | VectorMs(id: nat)

  function Kept(s: State, l: Ledger): Window {
    match l
    case WakeMs(p) => Samples(s.sched.wakeMs, p)
    case WakeCpu(c) => Samples(s.sched.wakeCpu, c)
    case WakeGroup(g) => Samples(s.sched.wakeGroup, g)
    case OffMs(p) => Samples(s.sched.offMs, p)
    case CallMs(id) => Samples(s.calls.ms, id)
    case VectorMs(id) => Samples(s.irqs.ms, id)
  }

  /** The key whose latency an event puts into a window, if it records one. */
  function Source(s: State, e: Input, l: Ledger): Option<Key> {
    if e.Lost? then None else
    match l
    case WakeMs(p) => Some(Waiting(p))
    case OffMs(p) => Some(Sleeping(p))
    case WakeCpu(c) =>
      if e.what.Switch? && e.what.next.Some? && e.cpu == c then Some(Waiting(e.what.next.value)) else None
    case WakeGroup(g) =>
      if e.what.Switch? && e.what.next.Some? && e.what.cgroup == Some(g) && GroupTaken(s.sched, Some(g))
      then Some(Waiting(e.what.next.value)) else None
    case CallMs(id) => if e.pid in s.calls.open && s.calls.open[e.pid].1 == id then Some(Calling(e.pid)) else None
    case VectorMs(id) =>
      if e.what.IrqLeave? && (e.cpu, e.what.soft) in s.irqs.open &&
         VectorKey(s.irqs.open[(e.cpu, e.what.soft)].1, e.what.soft) == id
      then Some(Interrupted(e.cpu, e.what.soft)) else None
  }

  function Entry(s: State, e: Input, l: Ledger): Option<nat> {
    if Source(s, e, l).Some? then Recorded(s, e, Source(s, e, l).value) else None
  }

  /** A thread's own windows end with the thread. */
  predicate Forgets(s: State, e: Input, l: Ledger) {
    (l.WakeMs? || l.OffMs?) && (Exits(e, Waiting(l.pid)) || Reused(s, e, Waiting(l.pid)))
  }

  function Grown(s: State, e: Input, l: Ledger): Window {
    if Forgets(s, e, l) then []
    else if Entry(s, e, l).Some? then Push(Kept(s, l), Ms(Entry(s, e, l).value))
    else Kept(s, l)
  }

  lemma StartedWindows(c: Sched, q: nat, start: Option<nat>, p: nat)
    ensures Samples(Started(c, q, start).wakeMs, p) ==
            if p == q && Renewed(c, q, start) then [] else Samples(c.wakeMs, p)
    ensures Samples(Started(c, q, start).offMs, p) == if p == q && Renewed(c, q, start) then [] else Samples(c.offMs, p)
  {
  }

  lemma StartedOthers(c: Sched, q: nat, start: Option<nat>, p: nat)
    ensures Started(c, q, start).wakeCpu == c.wakeCpu && Started(c, q, start).wakeGroup == c.wakeGroup
    ensures Found(Started(c, q, start).off, p) == if p == q && Renewed(c, q, start) then None else Found(c.off, p)
  {
  }

  lemma PushedAt(m: map<nat, Window>, k: nat, ns: nat, x: nat)
    ensures Samples(Pushed(m, k, ns), x) == if x == k then Push(Samples(m, x), Ms(ns)) else Samples(m, x)
  {
    hide Push, Ms;
  }

  lemma BackOnWindows(c: Sched, q: nat, at: nat, p: nat)
    ensures BackOn(c, q, at).wakeMs == c.wakeMs && BackOn(c, q, at).wakeCpu == c.wakeCpu
    ensures BackOn(c, q, at).wakeGroup == c.wakeGroup
    ensures Samples(BackOn(c, q, at).offMs, p) ==
            if p == q && Found(c.off, p).Some? && c.off[p] <= at then Push(Samples(c.offMs, p), Ms(at - c.off[p]))
            else Samples(c.offMs, p)
  {
    hide Push, Ms, Samples, Pushed;
    if q in c.off && c.off[q] <= at { PushedAt(c.offMs, q, at - c.off[q], p); }
  }

  lemma SwitchingWindows(c: Sched, w: What, at: nat, p: nat)
    requires w.Switch?
    ensures Switching(c, w, at).wakeCpu == c.wakeCpu && Switching(c, w, at).wakeGroup == c.wakeGroup
    ensures Samples(Switching(c, w, at).wakeMs, p) ==
            if w.next == Some(p) && Renewed(c, p, w.start) then [] else Samples(c.wakeMs, p)
    ensures Samples(Switching(c, w, at).offMs, p) ==
            if w.next != Some(p) then Samples(c.offMs, p)
            else if Renewed(c, p, w.start) then []
            else if p in c.off && c.off[p] <= at then Push(Samples(c.offMs, p), Ms(at - c.off[p]))
            else Samples(c.offMs, p)
  {
    hide Started, BackOn, Renewed, Samples, Push;
    if w.next.Some? {
      StartedWindows(c, w.next.value, w.start, p);
      StartedOthers(c, w.next.value, w.start, p);
      BackOnWindows(Started(c, w.next.value, w.start), w.next.value, at, p);
    }
  }

  lemma RunningWindows(c: Sched, q: nat, at: nat, cpu: nat, group: Option<nat>, x: nat)
    ensures Running(c, q, at, cpu, group).offMs == c.offMs
    ensures Samples(Running(c, q, at, cpu, group).wakeMs, x) ==
            if x == q && Answers(c, q, at) then Push(Samples(c.wakeMs, x), Ms(at - c.wake[q])) else Samples(c.wakeMs, x)
    ensures Samples(Running(c, q, at, cpu, group).wakeCpu, x) ==
            if x == cpu && Answers(c, q, at) then Push(Samples(c.wakeCpu, x), Ms(at - c.wake[q]))
            else Samples(c.wakeCpu, x)
    ensures Samples(Running(c, q, at, cpu, group).wakeGroup, x) ==
            if group == Some(x) && GroupTaken(c, group) && Answers(c, q, at)
            then Push(Samples(c.wakeGroup, x), Ms(at - c.wake[q])) else Samples(c.wakeGroup, x)
  {
    hide Push, Samples, Pushed, Ms;
    if Answers(c, q, at) {
      var ns := at - c.wake[q];
      PushedAt(c.wakeMs, q, ns, x);
      PushedAt(c.wakeCpu, cpu, ns, x);
      if GroupTaken(c, group) { PushedAt(c.wakeGroup, group.value, ns, x); }
    }
  }

  lemma PreemptedWindows(c: Sched, prev: Option<nat>, runnable: bool, at: nat)
    ensures var d := Preempted(c, prev, runnable, at);
            d.offMs == c.offMs && d.wakeMs == c.wakeMs && d.wakeCpu == c.wakeCpu && d.wakeGroup == c.wakeGroup
  {
  }

  /** A wakeup is answered exactly when the event records a latency for the thread switched in. */
  lemma AnswersRecorded(s: State, e: Input, p: nat)
    requires e.Event? && e.what.Switch? && e.what.next == Some(p)
    ensures var d := Switching(s.sched, e.what, e.at);
            && (Answers(d, p, e.at) <==> Recorded(s, e, Waiting(p)).Some?)
            && (Answers(d, p, e.at) ==> Recorded(s, e, Waiting(p)) == Some(e.at - d.wake[p]))
  {
    hide Switching, Renewed;
    SwitchingOpen(s.sched, e.what, e.at, p);
  }

  lemma SwitchedWindow(s: State, e: Input, l: Ledger)
    requires e.Event? && e.what.Switch? && !l.CallMs? && !l.VectorMs?
    ensures Kept(s.(sched := Switched(s.sched, e.what, e.at, e.cpu)), l) == Grown(s, e, l)
  {
    hide Switching, Running, Preempted, Renewed, Samples, Push, Ms, Answers;
    var x :=
      match l
      case WakeMs(p) => p
      case WakeCpu(c) => c
      case WakeGroup(g) => g
      case OffMs(p) => p
      case CallMs(c) => c
      case VectorMs(v) => v;
    var d := Switching(s.sched, e.what, e.at);
    SwitchingWindows(s.sched, e.what, e.at, x);
    if e.what.next.Some? {
      RunningWindows(d, e.what.next.value, e.at, e.cpu, e.what.cgroup, x);
      AnswersRecorded(s, e, e.what.next.value);
    }
    PreemptedWindows(if e.what.next.Some? then Running(d, e.what.next.value, e.at, e.cpu, e.what.cgroup) else d,
                     e.what.prev, e.what.runnable, e.at);
  }

  lemma ReturnedWindow(s: State, e: Input, id: nat)
    requires e.Event? && e.what.Leave?
    ensures Samples(Returned(s.calls, e.pid, e.at, e.what.failed, e.what.errno).ms, id) == Grown(s, e, CallMs(id))
  {
    hide Push, Ms, Samples, Pushed, Caller;
    if Returns(s.calls, e.pid, e.at) {
      PushedAt(s.calls.ms, s.calls.open[e.pid].1, e.at - s.calls.open[e.pid].0, id);
    }
  }

  lemma FinishedWindow(s: State, e: Input, id: nat)
    requires e.Event? && e.what.IrqLeave?
    ensures Samples(Finished(s.irqs, e.cpu, e.what.soft, e.at).ms, id) == Grown(s, e, VectorMs(id))
  {
    hide Push, Ms, Samples, Pushed, VectorKey;
    if Finishes(s.irqs, e.cpu, e.what.soft, e.at) {
      var o := s.irqs.open[(e.cpu, e.what.soft)];
      PushedAt(s.irqs.ms, VectorKey(o.1, e.what.soft), e.at - o.0, id);
    }
  }

  lemma OtherWindow(s: State, e: Input, l: Ledger)
    requires e.Event? && !e.what.Switch? && !e.what.Leave? && !e.what.IrqLeave?
    ensures Kept(Handled(s, e), l) == Grown(s, e, l)
  {
    hide Push, Ms, Moved;
  }

  lemma HandledWindow(s: State, e: Input, l: Ledger)
    requires e.Event?
    ensures Kept(Handled(s, e), l) == Grown(s, e, l)
  {
    hide Push, Ms, Switched, Returned, Finished, Grown, Recorded, Renewed;
    if e.what.Switch? {
      if l.CallMs? || l.VectorMs? { ForeignWindow(s, e, l); } else { SwitchedWindow(s, e, l); }
    } else if e.what.Leave? {
      if l.CallMs? { ReturnedWindow(s, e, l.id); } else { ForeignWindow(s, e, l); }
    } else if e.what.IrqLeave? {
      if l.VectorMs? { FinishedWindow(s, e, l.id); } else { ForeignWindow(s, e, l); }
    } else {
      OtherWindow(s, e, l);
    }
  }

  /** A closing event of another kind records nothing in this window. */
  lemma ForeignWindow(s: State, e: Input, l: Ledger)
    requires e.Event?
    requires e.what.Switch? ==> l.CallMs? || l.VectorMs?
    requires e.what.Leave? ==> !l.CallMs?
    requires e.what.IrqLeave? ==> !l.VectorMs?
    requires e.what.Switch? || e.what.Leave? || e.what.IrqLeave?
    ensures Grown(s, e, l) == Kept(s, l)
  {
    hide Push, Ms, Samples, Renewed;
  }

  lemma BoundedWindow(s: State, l: Ledger)
    ensures Kept(Bounded(s), l) == Kept(s, l) ||
            (Bounded(s).lost > s.lost && (l.WakeMs? || l.OffMs?) && Kept(Bounded(s), l) == [])
  {
  }

  /** One input, for one window: it is forgotten with its thread, grown by the entry, or emptied by an overflow. */
  lemma LedgerStep(s: State, e: Input, l: Ledger)
    ensures || Kept(Step(s, e), l) == (if e.Lost? then Kept(s, l) else Grown(s, e, l))
            || (e.Event? && Cut(s, e) && (l.WakeMs? || l.OffMs?) && Kept(Step(s, e), l) == [])
  {
    hide Handled, Bounded, Grown;
    if e.Event? {
      hide Kept;
      HandledWindow(s, e, l);
      HandledLost(s, e);
      BoundedWindow(Handled(s, e), l);
    }
  }

  // ---- Pairs ----

  predicate Pairs(s: State, e: Input) {
    || (e.Event? && e.what.Switch? && e.what.next.Some? && Recorded(s, e, Waiting(e.what.next.value)).Some?)
    || (e.Event? && e.what.Leave? && Recorded(s, e, Calling(e.pid)).Some?)
    || (e.Event? && e.what.IrqLeave? && Recorded(s, e, Interrupted(e.cpu, e.what.soft)).Some?)
  }

  /** The pair counter counts the recorded wakeups, calls and interrupts. */
  lemma PairStep(s: State, e: Input)
    ensures Step(s, e).paired == s.paired + One(Pairs(s, e))
  {
    hide Bounded, Switched, Returned, Finished, Moved, Switching, Answers, Renewed;
    if e.Event? {
      BoundedOpen(Handled(s, e), Calling(0));
      if e.what.Switch? && e.what.next.Some? { AnswersRecorded(s, e, e.what.next.value); }
    }
  }

  // ---- Counters ----

  /** The counters that only grow. */
  datatype Counter =
    Switches(cpu: nat) | Arrivals(cpu: nat) | CallCount(id: nat) | CallErrors(id: nat) | CallErrnos(id: nat, errno: nat)
                   | VectorNs(cpu: nat, key: nat)

  function At<K>(m: map<K, nat>, k: K): nat { if k in m then m[k] else 0 }

  function Counted(s: State, c: Counter): nat {
    match c
    case Switches(cpu) => At(s.moves.switches, cpu)
    case Arrivals(cpu) => At(s.moves.cpus, cpu)
    case CallCount(id) => At(s.calls.count, id)
    case CallErrors(id) => At(s.calls.errors, id)
    case CallErrnos(id, n) => At(s.calls.errnos, (id, n))
    case VectorNs(cpu, key) => At(s.irqs.ns, (cpu, key))
  }

  /** The event completes a call of that number. */
  predicate Completes(s: State, e: Input, id: nat) {
    e.Event? && e.what.Leave? && e.pid in s.calls.open && s.calls.open[e.pid].1 == id &&
    Recorded(s, e, Calling(e.pid)).Some?
  }

  /** What an event is worth to a counter. */
  function Amount(s: State, e: Input, c: Counter): nat {
    if e.Lost? then 0 else
    match c
    case Switches(cpu) => One(e.what.Switch? && e.cpu == cpu)
    case Arrivals(cpu) => One(e.what.Migrate? && e.what.dest == Some(cpu))
    case CallCount(id) => One(Completes(s, e, id))
    case CallErrors(id) => One(Completes(s, e, id) && e.what.failed)
    case CallErrnos(id, n) => One(Completes(s, e, id) && e.what.errno == Some(n))
    case VectorNs(cpu, key) =>
      if Source(s, e, VectorMs(key)).Some? && e.cpu == cpu && Entry(s, e, VectorMs(key)).Some?
      then Entry(s, e, VectorMs(key)).value else 0
  }

  lemma PlusAt<K>(m: map<K, nat>, k: K, n: nat, x: K)
    ensures At(Plus(m, k, n), x) == At(m, x) + if x == k then n else 0
  {
  }

  lemma SwitchCounts(s: State, e: Input, c: Counter)
    requires e.Event? && (e.what.Switch? || e.what.Migrate?)
    ensures Counted(Handled(s, e), c) == Counted(s, c) + Amount(s, e, c)
  {
    hide Switched, Switching, Answers, Plus, At;
    if e.what.Switch? && c.Switches? { PlusAt(s.moves.switches, e.cpu, 1, c.cpu); }
    if e.what.Migrate? && c.Arrivals? && e.what.dest.Some? { PlusAt(s.moves.cpus, e.what.dest.value, 1, c.cpu); }
  }

  lemma LeaveCounts(s: State, e: Input, c: Counter)
    requires e.Event? && e.what.Leave?
    ensures Counted(Handled(s, e), c) == Counted(s, c) + Amount(s, e, c)
  {
    hide Plus, At, Pushed, Caller;
    if e.pid in s.calls.open {
      var id := s.calls.open[e.pid].1;
      if c.CallCount? { PlusAt(s.calls.count, id, 1, c.id); }
      if c.CallErrors? { PlusAt(s.calls.errors, id, 1, c.id); }
      if c.CallErrnos? && e.what.errno.Some? { PlusAt(s.calls.errnos, (id, e.what.errno.value), 1, (c.id, c.errno)); }
    }
  }

  lemma IrqCounts(s: State, e: Input, c: Counter)
    requires e.Event? && e.what.IrqLeave?
    ensures Counted(Handled(s, e), c) == Counted(s, c) + Amount(s, e, c)
  {
    hide Plus, At, Pushed, VectorKey;
    if c.VectorNs? && Finishes(s.irqs, e.cpu, e.what.soft, e.at) {
      var o := s.irqs.open[(e.cpu, e.what.soft)];
      PlusAt(s.irqs.ns, (e.cpu, VectorKey(o.1, e.what.soft)), e.at - o.0, (c.cpu, c.key));
    }
  }

  lemma OtherCounts(s: State, e: Input, c: Counter)
    requires e.Event? && !e.what.Switch? && !e.what.Migrate? && !e.what.Leave? && !e.what.IrqLeave?
    ensures Counted(Handled(s, e), c) == Counted(s, c) + Amount(s, e, c)
  {
    hide At;
  }

  lemma BoundedCounts(s: State, c: Counter)
    ensures Counted(Bounded(s), c) == Counted(s, c)
  {
    hide At;
  }

  /** One input adds its amount to every counter, whatever overflows. */
  lemma CounterStep(s: State, e: Input, c: Counter)
    ensures Counted(Step(s, e), c) == Counted(s, c) + Amount(s, e, c)
  {
    hide Handled, Bounded;
    if e.Event? {
      hide Counted, Amount;
      BoundedCounts(Handled(s, e), c);
      if e.what.Switch? || e.what.Migrate? {
        SwitchCounts(s, e, c);
      } else if e.what.Leave? {
        LeaveCounts(s, e, c);
      } else if e.what.IrqLeave? {
        IrqCounts(s, e, c);
      } else {
        OtherCounts(s, e, c);
      }
    }
  }
}
