/**
  What the correlator's windows and counters hold, by the events alone: whose interval, which call or vector, how long.
 */
module CorrelationLaws {
  import opened Wrappers
  import opened Correlation
  import opened CorrelationHistory

  // ---- Which call or vector an open interval is of ----

  /** The call or the vector stored with an open interval. */
  function Tag(s: State, k: Key): Option<nat> {
    match k
    case Calling(p) => if p in s.calls.open then Some(s.calls.open[p].1) else None
    case Interrupted(cpu, soft) => if (cpu, soft) in s.irqs.open then Some(s.irqs.open[(cpu, soft)].1) else None
    case _ => None
  }

  /** The call or the vector an opening event is about. */
  function Subject(e: Input): nat
    requires e.Event?
  {
    match e.what
    case Enter(call) => if call.Some? then call.value else 0
    case IrqEnter(_, vector) => vector
    case _ => 0
  }

  lemma TagHandled(s: State, e: Input, k: Key)
    requires e.Event? && (k.Calling? || k.Interrupted?)
    ensures Tag(Handled(s, e), k) ==
            if Opens(e, k) then Some(Subject(e)) else if Closes(e, k) || Exits(e, k) then None else Tag(s, k)
  {
    hide Switched, Switching, Moved, Answers, Plus, Pushed, Caller;
  }

  lemma TagBounded(s: State, k: Key)
    ensures Tag(Bounded(s), k) == if Bounded(s).lost > s.lost then None else Tag(s, k)
  {
  }

  lemma TagStep(s: State, e: Input, k: Key)
    requires k.Calling? || k.Interrupted?
    ensures Tag(Step(s, e), k) ==
            if Cut(s, e) then None
            else if Opens(e, k) then Some(Subject(e))
            else if Closes(e, k) || Exits(e, k) then None
            else Tag(s, k)
  {
    hide Handled, Bounded;
    if e.Event? {
      TagHandled(s, e, k);
      HandledLost(s, e);
      TagBounded(Handled(s, e), k);
    }
  }

  /** An open call or interrupt is of the number its opening event names. */
  lemma {:induction false} OpenSubject(s: State, h: seq<Input>, n: nat, k: Key, i: nat)
    requires n <= |h| && Opener(s, h, n, k, i) && (k.Calling? || k.Interrupted?)
    ensures h[i].Event? && Tag(Run(s, h[..n]), k) == Some(Subject(h[i]))
    decreases n
  {
    hide Cut, Opens, Closes, Exits, Step, Live, Subject;
    if n == 0 {
      LiveBefore(s, h, 0, k);
    } else {
      RunNext(s, h, n - 1);
      hide Run;
      LiveNext(s, h, n - 1, n, k);
      LiveBefore(s, h, n - 1, k);
      TagStep(Run(s, h[..n - 1]), h[n - 1], k);
      OpensNotExits(h[i], k);
      if i < n - 1 {
        OpenSubject(s, h, n - 1, k, i);
      }
    }
  }

  // ---- Which window a latency goes to ----

  /** The latency of the interval from event a to event b of a key goes to this window. */
  predicate Belongs(a: Input, b: Input, k: Key, l: Ledger) {
    a.Event? && b.Event? &&
    match l
    case WakeMs(p) => k == Waiting(p)
    case OffMs(p) => k == Sleeping(p)
    case WakeCpu(cpu) => k.Waiting? && b.cpu == cpu
    case WakeGroup(g) => k.Waiting? && b.what.Switch? && b.what.cgroup == Some(g) && g != 0
    case CallMs(id) => k.Calling? && a.what.Enter? && a.what.call == Some(id)
    case VectorMs(key) =>
      k.Interrupted? && a.what.IrqEnter? && key == a.what.vector + if k.soft then 0 else 1000000
  }

  /** At most 512 groups have a window. */
  predicate Admitted(s: State, l: Ledger) {
    l.WakeGroup? ==> |s.sched.wakeGroup| < 512 || l.id in s.sched.wakeGroup
  }

  lemma SourceBelongs(s: State, e: Input, l: Ledger, a: Input)
    requires Source(s, e, l).Some? && a.Event? && e.Event? && Opens(a, Source(s, e, l).value)
    requires var k := Source(s, e, l).value; k.Calling? || k.Interrupted? ==> Tag(s, k) == Some(Subject(a))
    ensures Belongs(a, e, Source(s, e, l).value, l) && Admitted(s, l)
  {
  }

  lemma BelongsSource(s: State, e: Input, l: Ledger, a: Input, k: Key)
    requires Closes(e, k) && Opens(a, k) && Belongs(a, e, k, l) && Admitted(s, l)
    requires k.Calling? || k.Interrupted? ==> Tag(s, k) == Some(Subject(a))
    ensures Source(s, e, l) == Some(k)
  {
  }

  lemma ExplainsFacts(s: State, h: seq<Input>, j: nat, k: Key, i: nat, v: nat)
    requires j < |h| && Explains(s, h, j, k, i, v)
    ensures i < j && h[i].Event? && h[j].Event? && Opens(h[i], k) && Closes(h[j], k)
    ensures k.Calling? || k.Interrupted? ==> Tag(Run(s, h[..j]), k) == Some(Subject(h[i]))
  {
    hide Run, Opens, Closes, Exits, Cut, Live, Reused, Subject, Tag;
    LiveFacts(s, h, j, k, i);
    if k.Calling? || k.Interrupted? { OpenSubject(s, h, j, k, i); }
  }

  /**
    An event enters a latency in a window exactly if some key's live opening explains it and the events put it there;
    the opening names the call or the vector.
   */
  lemma EntryIff(s: State, h: seq<Input>, j: nat, l: Ledger) returns (k: Key, i: nat)
    requires Fresh(s) && j < |h|
    ensures var t := Run(s, h[..j]); var e := Entry(t, h[j], l);
            e.Some? ==> i < j && Explains(s, h, j, k, i, e.value) && Belongs(h[i], h[j], k, l) && Admitted(t, l)
    ensures forall m: Key, x: nat, v: nat ::
              x < j && Explains(s, h, j, m, x, v) && Belongs(h[x], h[j], m, l) && Admitted(Run(s, h[..j]), l) ==>
                Entry(Run(s, h[..j]), h[j], l) == Some(v)
  {
    hide Fresh, Run, Explains, Belongs, Admitted, Source, Recorded, Opens, Closes, Tag, Subject;
    var t := Run(s, h[..j]);
    k, i := Waiting(0), 0;
    if Entry(t, h[j], l).Some? {
      k := Source(t, h[j], l).value;
      i := Latency(s, h, j, k);
      ExplainsFacts(s, h, j, k, i, Recorded(t, h[j], k).value);
      SourceBelongs(t, h[j], l, h[i]);
    }
    forall m: Key, x: nat, v: nat
      | x < j && Explains(s, h, j, m, x, v) && Belongs(h[x], h[j], m, l) && Admitted(t, l)
      ensures Entry(t, h[j], l) == Some(v)
    {
      ExplainsFacts(s, h, j, m, x, v);
      BelongsSource(t, h[j], l, h[x], m);
      var y := Latency(s, h, j, m);
    }
  }

  /**
    Every stored sample is a closing time minus an opening time in milliseconds, of one live interval of the thread,
    CPU, group, call or vector the window is of.
   */
  lemma StoredLatency(s: State, h: seq<Input>, l: Ledger, x: nat) returns (j: nat, k: Key, i: nat, v: nat)
    requires Fresh(s) && x < |Kept(Run(s, h), l)|
    ensures i < j < |h| && Explains(s, h, j, k, i, v) && Belongs(h[i], h[j], k, l)
    ensures Kept(Run(s, h), l)[x] == v as real / 1000000.0
  {
    hide Fresh, Run, Explains, Belongs, Admitted, Entry, Kept;
    Stored(s, h, l);
    j := Journal(s, h, l)[x];
    assert Holds(s, h, l, j, Kept(Run(s, h), l)[x]);
    v := Entry(Run(s, h[..j]), h[j], l).value;
    k, i := EntryIff(s, h, j, l);
  }

  // ---- What one input does to a window ----

  /** The thread of the window is gone: it exits, or its number is taken by a thread started at another time. */
  predicate Ended(s: State, e: Input, p: nat) {
    && e.Event?
    && (|| (e.what.Exit? && p == if e.what.gone.Some? then e.what.gone.value else e.pid)
        || (e.what.Switch? && e.what.next == Some(p) && p in s.sched.starts
            && e.what.start.Some? && e.what.start.value > 0 && e.what.start.value != s.sched.starts[p]))
  }

  /** Too many threads have a window of this sort. */
  predicate Overflows(s: State, e: Input, l: Ledger) {
    e.Event? && ((l.WakeMs? && |Handled(s, e).sched.wakeMs| > 4096) || (l.OffMs? && |Handled(s, e).sched.offMs| > 4096))
  }

  lemma EndedForgets(s: State, e: Input, l: Ledger)
    ensures Forgets(s, e, l) <==> (l.WakeMs? || l.OffMs?) && Ended(s, e, l.pid)
  {
  }

  lemma BoundedExact(s: State, l: Ledger)
    ensures Kept(Bounded(s), l) ==
            if (l.WakeMs? && |s.sched.wakeMs| > 4096) || (l.OffMs? && |s.sched.offMs| > 4096) then [] else Kept(s, l)
  {
  }

  lemma GrownExact(s: State, e: Input, l: Ledger)
    ensures Kept(Step(s, e), l) ==
            if e.Lost? then Kept(s, l) else if Overflows(s, e, l) then [] else Grown(s, e, l)
  {
    if e.Event? {
      HandledWindow(s, e, l);
      BoundedExact(Handled(s, e), l);
    } else {
      hide Bounded, Handled, Grown;
    }
    hide Bounded, Handled, Grown, Kept, Lose;
  }

  function Appended(w: Window, v: nat): Window {
    (if |w| < 4096 then w else w[1..]) + [v as real / 1000000.0]
  }

  /**
    A window gains exactly the latencies the events put there, in milliseconds and dropping the oldest of 4096; it is
    emptied exactly when its thread is gone or too many threads have one; nothing else changes it.
   */
  lemma WindowStep(s: State, h: seq<Input>, j: nat, l: Ledger)
    requires Fresh(s) && j < |h|
    ensures var t := Run(s, h[..j]); var u := Run(s, h[..j + 1]);
            if Overflows(t, h[j], l) || ((l.WakeMs? || l.OffMs?) && Ended(t, h[j], l.pid)) then Kept(u, l) == []
            else
              && (forall k: Key, i: nat, v: nat ::
                    i < j && Explains(s, h, j, k, i, v) && Belongs(h[i], h[j], k, l) && Admitted(t, l) ==>
                      Kept(u, l) == Appended(Kept(t, l), v))
              && (|| Kept(u, l) == Kept(t, l)
                  || exists k: Key, i: nat, v: nat ::
                       i < j && Explains(s, h, j, k, i, v) && Belongs(h[i], h[j], k, l) && Admitted(t, l))
  {
    hide Fresh, Run, Explains, Belongs, Admitted, Kept, Step, Entry, Grown, Forgets, Ended, Overflows;
    var t := Run(s, h[..j]);
    RunNext(s, h, j);
    GrownExact(t, h[j], l);
    EndedForgets(t, h[j], l);
    GrownBy(t, h[j], l);
    EntryLost(t, h[j], l);
    var k, i := EntryIff(s, h, j, l);
  }

  lemma EntryLost(s: State, e: Input, l: Ledger)
    ensures e.Lost? ==> Entry(s, e, l).None? && !Overflows(s, e, l)
  {
  }

  lemma GrownBy(s: State, e: Input, l: Ledger)
    ensures Grown(s, e, l) ==
            if Forgets(s, e, l) then []
            else if Entry(s, e, l).Some? then Appended(Kept(s, l), Entry(s, e, l).value) else Kept(s, l)
    ensures e.Lost? ==> !Forgets(s, e, l)
  {
    hide Kept, Entry;
  }

  // ---- Counters ----

  /** Input j ends a call of this number. */
  ghost predicate Answered(s: State, h: seq<Input>, j: nat, id: nat)
    requires j < |h|
  {
    exists k: Key, i: nat, v: nat :: i < j && Explains(s, h, j, k, i, v) && Belongs(h[i], h[j], k, CallMs(id))
  }

  /** Input j ends an interrupt of this vector after v nanoseconds. */
  ghost predicate Serviced(s: State, h: seq<Input>, j: nat, key: nat, v: nat)
    requires j < |h|
  {
    exists k: Key, i: nat :: i < j && Explains(s, h, j, k, i, v) && Belongs(h[i], h[j], k, VectorMs(key))
  }

  /** The nanoseconds of the interrupt of this vector that input j ends. */
  ghost function Spent(s: State, h: seq<Input>, j: nat, key: nat): nat
    requires j < |h|
  {
    if exists v: nat :: Serviced(s, h, j, key, v) then var v: nat :| Serviced(s, h, j, key, v); v else 0
  }

  /** What input j is worth to a counter, by the events. */
  ghost function Worth(s: State, h: seq<Input>, j: nat, c: Counter): nat
    requires j < |h|
  {
    var e := h[j];
    if e.Lost? then 0 else
    match c
    case Switches(cpu) => if e.what.Switch? && e.cpu == cpu then 1 else 0
    case Arrivals(cpu) => if e.what.Migrate? && e.what.dest == Some(cpu) then 1 else 0
    case CallCount(id) => if Answered(s, h, j, id) then 1 else 0
    case CallErrors(id) => if Answered(s, h, j, id) && e.what.Leave? && e.what.failed then 1 else 0
    case CallErrnos(id, n) => if Answered(s, h, j, id) && e.what.Leave? && e.what.errno == Some(n) then 1 else 0
    case VectorNs(cpu, key) => if e.cpu == cpu then Spent(s, h, j, key) else 0
  }

  lemma CompletesEntry(s: State, e: Input, id: nat)
    ensures Completes(s, e, id) <==> Entry(s, e, CallMs(id)).Some?
    ensures Completes(s, e, id) ==> e.Event? && e.what.Leave?
  {
  }

  lemma AnsweredIff(s: State, h: seq<Input>, j: nat, id: nat)
    requires Fresh(s) && j < |h|
    ensures Answered(s, h, j, id) <==> Completes(Run(s, h[..j]), h[j], id)
  {
    hide Fresh, Run, Explains, Belongs, Completes, Entry;
    CompletesEntry(Run(s, h[..j]), h[j], id);
    var k, i := EntryIff(s, h, j, CallMs(id));
  }

  lemma SpentIs(s: State, h: seq<Input>, j: nat, key: nat)
    requires Fresh(s) && j < |h|
    ensures var e := Entry(Run(s, h[..j]), h[j], VectorMs(key));
            Spent(s, h, j, key) == if e.Some? then e.value else 0
  {
    hide Fresh, Run, Explains, Belongs, Entry;
    var e := Entry(Run(s, h[..j]), h[j], VectorMs(key));
    var k, i := EntryIff(s, h, j, VectorMs(key));
    if e.Some? { assert Serviced(s, h, j, key, e.value); }
  }

  lemma AmountIs(s: State, h: seq<Input>, j: nat, c: Counter)
    requires Fresh(s) && j < |h|
    ensures Amount(Run(s, h[..j]), h[j], c) == Worth(s, h, j, c)
  {
    hide Fresh, Run, Answered, Spent, Completes, Entry;
    match c {
      case CallCount(id) => AnsweredIff(s, h, j, id);
      case CallErrors(id) => AnsweredIff(s, h, j, id); CompletesEntry(Run(s, h[..j]), h[j], id);
      case CallErrnos(id, n) => AnsweredIff(s, h, j, id); CompletesEntry(Run(s, h[..j]), h[j], id);
      case VectorNs(cpu, key) => SpentIs(s, h, j, key); EntrySource(Run(s, h[..j]), h[j], VectorMs(key));
      case _ =>
    }
  }

  lemma EntrySource(s: State, e: Input, l: Ledger)
    ensures Entry(s, e, l).Some? ==> Source(s, e, l).Some?
  {
  }

  /** What the first n inputs are worth to a counter. */
  ghost function Tallied(s: State, h: seq<Input>, n: nat, c: Counter): nat
    requires n <= |h|
  {
    if n == 0 then 0 else Tallied(s, h, n - 1, c) + Worth(s, h, n - 1, c)
  }

  /** Every growing counter is the sum of what the events of the history are worth to it. */
  lemma {:induction false} CountersTally(s: State, h: seq<Input>, n: nat, c: Counter)
    requires Fresh(s) && n <= |h|
    ensures Counted(Run(s, h[..n]), c) == Tallied(s, h, n, c)
  {
    hide Fresh, Step, Amount, Counted, Worth;
    if n == 0 {
      FreshCounts(s, c);
    } else {
      CountersTally(s, h, n - 1, c);
      RunNext(s, h, n - 1);
      CounterStep(Run(s, h[..n - 1]), h[n - 1], c);
      AmountIs(s, h, n - 1, c);
    }
  }

  /** The input at j ends a wakeup, a call or an interrupt. */
  ghost predicate Paired(s: State, h: seq<Input>, j: nat)
    requires j < |h|
  {
    exists k: Key, i: nat, v: nat :: !k.Sleeping? && Explains(s, h, j, k, i, v)
  }

  ghost function PairsSoFar(s: State, h: seq<Input>, n: nat): nat
    requires n <= |h|
  {
    if n == 0 then 0 else PairsSoFar(s, h, n - 1) + if Paired(s, h, n - 1) then 1 else 0
  }

  lemma PairsKey(s: State, e: Input) returns (k: Key)
    ensures Pairs(s, e) ==> !k.Sleeping? && Recorded(s, e, k).Some?
    ensures forall m: Key :: !m.Sleeping? && Recorded(s, e, m).Some? ==> Pairs(s, e)
  {
    hide Reused;
    k := Waiting(0);
    if e.Event? {
      match e.what {
        case Switch(next, _, _, _, _) => k := if next.Some? then Waiting(next.value) else k;
        case Leave(_, _) => k := Calling(e.pid);
        case IrqLeave(soft) => k := Interrupted(e.cpu, soft);
        case _ =>
      }
    }
  }

  lemma PairedIff(s: State, h: seq<Input>, j: nat)
    requires Fresh(s) && j < |h|
    ensures Paired(s, h, j) <==> Pairs(Run(s, h[..j]), h[j])
  {
    hide Fresh, Run, Explains, Pairs, Recorded;
    var k := PairsKey(Run(s, h[..j]), h[j]);
    var i := Latency(s, h, j, k);
    forall m: Key, x: nat, v: nat | !m.Sleeping? && Explains(s, h, j, m, x, v) ensures Pairs(Run(s, h[..j]), h[j]) {
      var y := Latency(s, h, j, m);
    }
  }

  /** The pair counter is the number of inputs that end a wakeup, a call or an interrupt. */
  lemma {:induction false} PairedCounts(s: State, h: seq<Input>, n: nat)
    requires Fresh(s) && n <= |h|
    ensures Run(s, h[..n]).paired == PairsSoFar(s, h, n)
  {
    hide Step, Pairs, Paired;
    if n == 0 {
    } else {
      PairedCounts(s, h, n - 1);
      RunNext(s, h, n - 1);
      PairStep(Run(s, h[..n - 1]), h[n - 1]);
      PairedIff(s, h, n - 1);
    }
  }

  // ---- Start times, losses, migrations and callers ----

  /** The start time known for a thread: of its last switch-in that names one, until it exits or there are too many. */
  lemma StartsStep(s: State, e: Input, p: nat)
    ensures Found(Step(s, e).sched.starts, p) ==
            if e.Lost? then Found(s.sched.starts, p)
            else if |Handled(s, e).sched.starts| > 16384 then None
            else if e.what.Switch? && e.what.next == Some(p) && e.what.start.Some? && e.what.start.value > 0
            then e.what.start
            else if e.what.Exit? && p == (if e.what.gone.Some? then e.what.gone.value else e.pid) then None
            else Found(s.sched.starts, p)
  {
    if e.Event? {
      hide Bounded, Handled, Found;
      BoundedStarts(Handled(s, e), p);
      StartsGrow(s, e, p);
    }
  }

  lemma BoundedStarts(s: State, p: nat)
    ensures Found(Bounded(s).sched.starts, p) == if |s.sched.starts| > 16384 then None else Found(s.sched.starts, p)
  {
    BoundParts(s);
    hide Bounded;
  }

  lemma MovesParts(s: State)
    ensures BoundMoves(s).sched.starts == s.sched.starts && BoundMoves(s).calls.callers == s.calls.callers
  {
  }

  lemma StartsParts(s: State)
    ensures BoundStarts(s).sched.starts == if |s.sched.starts| > 16384 then map[] else s.sched.starts
    ensures BoundStarts(s).calls.callers == s.calls.callers
  {
  }

  lemma WindowsParts(s: State)
    ensures BoundOffMs(s).sched.starts == s.sched.starts && BoundOffMs(s).calls.callers == s.calls.callers
    ensures BoundWakeMs(s).sched.starts == s.sched.starts && BoundWakeMs(s).calls.callers == s.calls.callers
    ensures BoundOpen(s).sched.starts == s.sched.starts && BoundOpen(s).calls.callers == s.calls.callers
  {
  }

  lemma BoundParts(s: State)
    ensures Bounded(s).sched.starts == if |s.sched.starts| > 16384 then map[] else s.sched.starts
    ensures Bounded(s).calls.callers == s.calls.callers
  {
    hide BoundMoves, BoundStarts, BoundOffMs, BoundWakeMs, BoundOpen;
    MovesParts(s);
    StartsParts(BoundMoves(s));
    WindowsParts(BoundStarts(BoundMoves(s)));
    WindowsParts(BoundOffMs(BoundStarts(BoundMoves(s))));
    WindowsParts(BoundWakeMs(BoundOffMs(BoundStarts(BoundMoves(s)))));
  }

  lemma StartsGrow(s: State, e: Input, p: nat)
    requires e.Event?
    ensures Found(Handled(s, e).sched.starts, p) ==
            if e.what.Switch? && e.what.next == Some(p) && e.what.start.Some? && e.what.start.value > 0
            then e.what.start
            else if e.what.Exit? && p == (if e.what.gone.Some? then e.what.gone.value else e.pid) then None
            else Found(s.sched.starts, p)
  {
    hide Returned, Finished, Moved, Switched, Switching, Answers;
    if e.what.Switch? { StartsSwitched(s.sched, e.what, e.at, e.cpu, p); }
  }

  predicate TooManyMoves(s: State) { |s.moves.tasks| > 16384 || |s.moves.groups| > 512 }

  predicate TooManyOpen(s: State) { |s.sched.wake| > 16384 || |s.calls.open| > 16384 || |s.sched.off| > 16384 }

  /** How many tables overflow: the open ones only if none before them does, as a loss empties them. */
  function Overflown(s: State): nat {
    var n := (if TooManyMoves(s) then 1 else 0) + (if |s.sched.starts| > 16384 then 1 else 0)
             + (if |s.sched.offMs| > 4096 then 1 else 0) + if |s.sched.wakeMs| > 4096 then 1 else 0;
    if n == 0 && TooManyOpen(s) then 1 else n
  }

  /** The losses told, and one for each table that overflows; an input cuts every open interval exactly if it is one. */
  lemma LostStep(s: State, e: Input)
    ensures Step(s, e).lost == s.lost + if e.Lost? then e.n else Overflown(Handled(s, e))
    ensures Cut(s, e) <==> e.Lost? || Overflown(Handled(s, e)) > 0
  {
    if e.Event? {
      HandledLost(s, e);
      hide Handled;
    }
  }

  /** Migrations of a thread, until it exits or there are too many; of a group, unless it is 0. */
  lemma MigrationsStep(s: State, e: Input, p: nat, g: nat)
    ensures At(Step(s, e).moves.tasks, p) ==
            if e.Lost? then At(s.moves.tasks, p)
            else if TooManyMoves(Handled(s, e)) then 0
            else if e.what.Exit? && p == (if e.what.gone.Some? then e.what.gone.value else e.pid) then 0
            else At(s.moves.tasks, p) + if e.what.Migrate? && e.what.moved == Some(p) then 1 else 0
    ensures At(Step(s, e).moves.groups, g) ==
            if e.Lost? then At(s.moves.groups, g)
            else if TooManyMoves(Handled(s, e)) then 0
            else At(s.moves.groups, g) + if e.what.Migrate? && e.what.group == Some(g) && g != 0 then 1 else 0
  {
    if e.Event? {
      hide Bounded, Handled, At;
      BoundedMigrations(Handled(s, e), p, g);
      MigrationsGrow(s, e, p, g);
    }
  }

  lemma BoundedMigrations(s: State, p: nat, g: nat)
    ensures At(Bounded(s).moves.tasks, p) == if TooManyMoves(s) then 0 else At(s.moves.tasks, p)
    ensures At(Bounded(s).moves.groups, g) == if TooManyMoves(s) then 0 else At(s.moves.groups, g)
  {
  }

  lemma MigrationsGrow(s: State, e: Input, p: nat, g: nat)
    requires e.Event?
    ensures At(Handled(s, e).moves.tasks, p) ==
            if e.what.Exit? && p == (if e.what.gone.Some? then e.what.gone.value else e.pid) then 0
            else At(s.moves.tasks, p) + if e.what.Migrate? && e.what.moved == Some(p) then 1 else 0
    ensures At(Handled(s, e).moves.groups, g) ==
            At(s.moves.groups, g) + if e.what.Migrate? && e.what.group == Some(g) && g != 0 then 1 else 0
  {
    hide Returned, Finished, Switched, Switching, Answers, Plus, At;
    if e.what.Migrate? {
      if e.what.moved.Some? { PlusAt(s.moves.tasks, e.what.moved.value, 1, p); }
      if e.what.group.Some? { PlusAt(s.moves.groups, e.what.group.value, 1, g); }
    } else if e.what.Exit? {
      WithoutAt(s.moves.tasks, Gone(e), p);
    }
  }

  lemma WithoutAt(m: map<nat, nat>, k: nat, x: nat)
    ensures At(m - {k}, x) == if x == k then 0 else At(m, x)
  {
  }

  function CallersOf(c: Calls, id: nat): map<nat, nat> { if id in c.callers then c.callers[id] else map[] }

  lemma CallerAt(m: map<nat, map<nat, nat>>, id: nat, pid: nat, x: nat, p: nat)
    ensures var callers := if id in m then m[id] else map[];
            var other := if x in m then m[x] else map[];
            At(if x in Caller(m, id, pid) then Caller(m, id, pid)[x] else map[], p) ==
            At(other, p) + if x == id && p == pid && (|callers| < 64 || pid in callers) then 1 else 0
  {
  }

  /** A thread's calls of a number grow by one exactly when it ends one, while it is among at most 64 callers. */
  lemma CallersStep(s: State, h: seq<Input>, j: nat, id: nat, p: nat)
    requires Fresh(s) && j < |h|
    ensures var c, d := Run(s, h[..j]).calls, Run(s, h[..j + 1]).calls;
            At(CallersOf(d, id), p) == At(CallersOf(c, id), p) +
              if Answered(s, h, j, id) && h[j].Event? && h[j].pid == p
                 && (|CallersOf(c, id)| < 64 || p in CallersOf(c, id)) then 1 else 0
  {
    hide Fresh, Run, Step, Answered, CallersOf, At, Completes;
    RunNext(s, h, j);
    AnsweredIff(s, h, j, id);
    CallersGrow(Run(s, h[..j]), h[j], id, p);
  }

  lemma CallersGrow(s: State, e: Input, id: nat, p: nat)
    ensures At(CallersOf(Step(s, e).calls, id), p) == At(CallersOf(s.calls, id), p) +
              if Completes(s, e, id) && e.pid == p
                 && (|CallersOf(s.calls, id)| < 64 || p in CallersOf(s.calls, id)) then 1 else 0
    ensures Completes(s, e, id) ==> e.Event?
  {
    if e.Event? {
      hide Bounded, Handled;
      BoundParts(Handled(s, e));
      CallersHandled(s, e, id, p);
    }
  }

  lemma CallersHandled(s: State, e: Input, id: nat, p: nat)
    requires e.Event?
    ensures At(CallersOf(Handled(s, e).calls, id), p) == At(CallersOf(s.calls, id), p) +
              if Completes(s, e, id) && e.pid == p
                 && (|CallersOf(s.calls, id)| < 64 || p in CallersOf(s.calls, id)) then 1 else 0
  {
    hide At, Caller, Completes;
    CallersAfter(s, e);
    hide Handled;
    CompletesIff(s, e, id);
    if e.what.Leave? && Returns(s.calls, e.pid, e.at) {
      CallerAt(s.calls.callers, s.calls.open[e.pid].1, e.pid, id, p);
    }
  }

  lemma CompletesIff(s: State, e: Input, id: nat)
    requires e.Event?
    ensures Completes(s, e, id) <==> e.what.Leave? && Returns(s.calls, e.pid, e.at) && s.calls.open[e.pid].1 == id
  {
  }

  lemma CallersAfter(s: State, e: Input)
    requires e.Event?
    ensures Handled(s, e).calls.callers ==
            if e.what.Leave? && Returns(s.calls, e.pid, e.at)
            then Caller(s.calls.callers, s.calls.open[e.pid].1, e.pid) else s.calls.callers
  {
    hide Finished, Switched, Switching, Answers, Moved, Plus, Pushed, Caller;
  }
}
