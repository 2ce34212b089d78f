/**
  Every interleaving of the sampling handlers, one per CPU, with the polling
  reader: a transition system over handler instructions and single map reads.
 */
module CpuProtocol {
  import opened Wrappers
  import opened Ordering
  import opened Profiles
  import opened Sums
  import opened CpuSampler

  /** Where the handler of one CPU is: attempt counted, first lookup missed, or insert refused. */
  datatype Handler = Idle | Counted(key: Key) | Missed(key: Key) | Refused(key: Key)

  /** Where the reader is; `quiet` scans began after the last detach, `todo` are the counters left to visit. */
  datatype Reader = Resting | Opening(quiet: bool) | Scanning(quiet: bool, todo: set<Key>)

  datatype State = State(
    attached: set<nat>, handlers: seq<Handler>, attempts: seq<nat>, lost: seq<nat>, counts: map<Key, seq<nat>>,
    books: Books, reader: Reader, lastScan: Option<nat>, finished: bool, drained: bool)

  /** Before the first sample and the first poll. */
  ghost predicate Initial(s: State) {
    && |s.attempts| == |s.handlers| == |s.lost|
    && (forall c :: 0 <= c < |s.handlers| ==> s.handlers[c].Idle? && s.attempts[c] == 0 && s.lost[c] == 0)
    && s.counts == map[] && s.books.seen == map[] && Fresh(s.books.data)
    && s.reader.Resting? && s.lastScan.None? && !s.finished && !s.drained
  }

  /** The slots of a new counter: one sample of that CPU. */
  function OneAt(n: nat, cpu: nat): seq<nat> { seq(n, i => if i == cpu then 1 else 0) }

  datatype Step =
    | Begin(cpu: nat, key: Key)
    | Lookup(cpu: nat)
    | InsertNew(cpu: nat)
    | InsertRefused(cpu: nat)
    | Retry(cpu: nat)
    | Attach(cpu: nat)
    | Detach(cpu: nat)
    | Finish
    | OpenScan(now: nat)
    | ReadFailures
    | ReadEntry(key: Key, user: Path, kernel: Path)
    | EndScan
    | AbortScan

  predicate At(s: State, cpu: nat) { cpu < |s.handlers| && cpu < |s.attempts| && cpu < |s.lost| }

  /** The handler instructions; a slot is written only by its own CPU. */
  predicate Enabled(s: State, step: Step) {
    match step
    case Begin(cpu, _) => At(s, cpu) && cpu in s.attached && s.handlers[cpu].Idle?
    case Lookup(cpu) => At(s, cpu) && s.handlers[cpu].Counted?
    case InsertNew(cpu) => At(s, cpu) && s.handlers[cpu].Missed? && s.handlers[cpu].key !in s.counts
    case InsertRefused(cpu) => At(s, cpu) && s.handlers[cpu].Missed?
    case Retry(cpu) => At(s, cpu) && s.handlers[cpu].Refused?
    case Attach(cpu) => !s.finished && At(s, cpu)
    case Detach(cpu) => At(s, cpu) && s.handlers[cpu].Idle?
    case Finish => s.attached == {}
    case OpenScan(now) =>
      s.reader.Resting? && (s.finished || s.lastScan.None? || now >= s.lastScan.value + CADENCE_MS)
    case ReadFailures => s.reader.Opening?
    case ReadEntry(key, _, _) => s.reader.Scanning? && key in s.counts
    case EndScan => s.reader.Scanning? && s.reader.todo == {}
    case AbortScan => !s.reader.Resting?
  }

  /** The handler's slot of an existing counter goes up by one. */
  function Bumped(s: State, cpu: nat, key: Key): State
    requires At(s, cpu) && key in s.counts
  {
    var slots := s.counts[key];
    s.(counts := s.counts[key := if cpu < |slots| then slots[cpu := slots[cpu] + 1] else slots],
       handlers := s.handlers[cpu := Idle])
  }

  function Next(s: State, step: Step): State
    requires Enabled(s, step)
  {
    match step
    case Begin(cpu, key) =>
      s.(attempts := s.attempts[cpu := s.attempts[cpu] + 1], handlers := s.handlers[cpu := Counted(key)])
    case Lookup(cpu) =>
      var key := s.handlers[cpu].key;
      if key in s.counts then Bumped(s, cpu, key) else s.(handlers := s.handlers[cpu := Missed(key)])
    case InsertNew(cpu) =>
      s.(counts := s.counts[s.handlers[cpu].key := OneAt(|s.handlers|, cpu)],
         handlers := s.handlers[cpu := Idle])
    case InsertRefused(cpu) => s.(handlers := s.handlers[cpu := Refused(s.handlers[cpu].key)])
    case Retry(cpu) =>
      var key := s.handlers[cpu].key;
      if key in s.counts then Bumped(s, cpu, key)
      else s.(lost := s.lost[cpu := s.lost[cpu] + 1], handlers := s.handlers[cpu := Idle])
    case Attach(cpu) => s.(attached := s.attached + {cpu})
    case Detach(cpu) => s.(attached := s.attached - {cpu})
    case Finish => s.(finished := true)
    case OpenScan(now) =>
      s.(lastScan := Some(now), reader := Opening(s.finished),
         books := s.books.(data := s.books.data.(kind := Cpu,
                             quality := s.books.data.quality.(attempted := SumSeq(s.attempts)))))
    case ReadFailures =>
      s.(reader := Scanning(s.reader.quiet, s.counts.Keys),
         books := s.books.(data := s.books.data.(quality := s.books.data.quality.(mapFailures := SumSeq(s.lost)))))
    case ReadEntry(key, user, kernel) =>
      s.(books := Take(s.books, key, SumSeq(s.counts[key]), user, kernel),
         reader := Scanning(s.reader.quiet, s.reader.todo - {key}))
    case EndScan => s.(reader := Resting, drained := s.drained || s.reader.quiet)
    case AbortScan => s.(reader := Resting)
  }

  // ---- What every step keeps ----

  ghost predicate Shaped(s: State) {
    && |s.attempts| == |s.handlers| == |s.lost|
    && (forall k :: k in s.counts ==> |s.counts[k]| == |s.handlers|)
    && (forall c :: 0 <= c < |s.handlers| && c !in s.attached ==> s.handlers[c].Idle?)
  }

  function Pending(h: Handler): nat { if h.Idle? then 0 else 1 }

  function InFlight(hs: seq<Handler>): nat {
    if hs == [] then 0 else Pending(hs[0]) + InFlight(hs[1..])
  }

  lemma {:induction false} InFlightUpdate(hs: seq<Handler>, i: nat, h: Handler)
    requires i < |hs|
    ensures InFlight(hs[i := h]) == InFlight(hs) - Pending(hs[i]) + Pending(h)
  {
    if i == 0 {
      assert hs[0 := h][1..] == hs[1..];
    } else {
      assert hs[i := h][1..] == hs[1..][i - 1 := h];
      InFlightUpdate(hs[1..], i - 1, h);
    }
  }

  /** The cumulative total of every counter. */
  function Totals(counts: map<Key, seq<nat>>): map<Key, nat> {
    map k | k in counts :: SumSeq(counts[k])
  }

  /** Every attempt is counted under a key, lost, or still in its handler. */
  ghost predicate Accounted(s: State) {
    SumSeq(s.attempts) == Total(Totals(s.counts)) + SumSeq(s.lost) + InFlight(s.handlers)
  }

  /** Nothing is counted twice: the reader is never ahead of a counter. */
  ghost predicate Behind(s: State) {
    && (!s.reader.Resting? ==> s.books.data.kind == Cpu)
    && Conserved(s.books)
    && (forall k :: k in s.books.seen ==> k in s.counts && s.books.seen[k] <= SumSeq(s.counts[k]))
  }

  /** After the last detach no handler runs, so what a quiet scan has read stays true. */
  ghost predicate Quiet(s: State) {
    && (s.finished ==> s.attached == {})
    && (!s.reader.Resting? && s.reader.quiet ==> s.finished && s.books.data.quality.attempted == SumSeq(s.attempts))
    && (s.reader.Scanning? && s.reader.quiet ==>
         && s.books.data.quality.mapFailures == SumSeq(s.lost)
         && forall k :: k in s.counts && k !in s.reader.todo ==> Get(s.books.seen, k) == SumSeq(s.counts[k]))
    && (s.drained ==> && s.finished
                      && s.books.data.quality.attempted == SumSeq(s.attempts)
                      && s.books.data.quality.mapFailures == SumSeq(s.lost)
                      && forall k :: k in s.counts ==> Get(s.books.seen, k) == SumSeq(s.counts[k]))
  }

  ghost predicate Inv(s: State) { Shaped(s) && Accounted(s) && Behind(s) && Quiet(s) }

  predicate Kernel(step: Step) {
    step.Begin? || step.Lookup? || step.InsertNew? || step.InsertRefused? || step.Retry?
  }

  /** Giving one counter a new total changes the sum by the difference. */
  lemma CountersSet(counts: map<Key, seq<nat>>, key: Key, slots: seq<nat>)
    ensures Total(Totals(counts[key := slots])) ==
            Total(Totals(counts)) - (if key in counts then SumSeq(counts[key]) else 0) + SumSeq(slots)
  {
    var t := Totals(counts);
    assert Totals(counts[key := slots]) == t[key := SumSeq(slots)];
    TotalSet(t, key, SumSeq(slots));
  }

  lemma BumpedCounts(s: State, cpu: nat, key: Key)
    requires Shaped(s) && At(s, cpu) && key in s.counts && !s.handlers[cpu].Idle?
    ensures var t := Bumped(s, cpu, key);
            && Total(Totals(t.counts)) == Total(Totals(s.counts)) + 1
            && InFlight(t.handlers) == InFlight(s.handlers) - 1
            && (forall k :: k in s.counts ==> k in t.counts && SumSeq(t.counts[k]) >= SumSeq(s.counts[k]))
  {
    hide SumSeq, Total, Totals, InFlight;
    var slots := s.counts[key];
    SumSeqUpdate(slots, cpu, slots[cpu] + 1);
    CountersSet(s.counts, key, slots[cpu := slots[cpu] + 1]);
    InFlightUpdate(s.handlers, cpu, Idle);
  }

  /** A handler that bumps touches neither attempts nor losses. */
  lemma BumpedKeeps(s: State, step: Step)
    requires Kernel(step) && Enabled(s, step)
    ensures !step.Begin? && !step.InsertNew? && !step.InsertRefused? && s.handlers[step.cpu].key in s.counts ==>
              var t := Next(s, step); t.attempts == s.attempts && t.lost == s.lost
  {
  }

  lemma {:induction false} SumSeqZero(s: seq<nat>)
    requires forall i :: 0 <= i < |s| ==> s[i] == 0
    ensures SumSeq(s) == 0
  {
    if s == [] {
    } else {
      SumSeqZero(s[1..]);
    }
  }

  lemma SumSeqOne(n: nat, cpu: nat)
    requires cpu < n
    ensures SumSeq(OneAt(n, cpu)) == 1
  {
    var z := OneAt(n, cpu)[cpu := 0];
    assert OneAt(n, cpu) == z[cpu := 1];
    SumSeqZero(z);
    SumSeqUpdate(z, cpu, 1);
  }

  /** Handler steps only grow counters, and account for every attempt. */
  lemma KernelAccounts(s: State, step: Step)
    requires Shaped(s) && Accounted(s) && Kernel(step) && Enabled(s, step)
    ensures Accounted(Next(s, step))
    ensures var t := Next(s, step);
            forall k :: k in s.counts ==> k in t.counts && SumSeq(t.counts[k]) >= SumSeq(s.counts[k])
  {
    hide SumSeq, Total, Totals, InFlight, Bumped;
    BumpedKeeps(s, step);
    match step
    case Begin(cpu, key) =>
      SumSeqUpdate(s.attempts, cpu, s.attempts[cpu] + 1);
      InFlightUpdate(s.handlers, cpu, Counted(key));
    case Lookup(cpu) =>
      var key := s.handlers[cpu].key;
      if key in s.counts { BumpedCounts(s, cpu, key); } else { InFlightUpdate(s.handlers, cpu, Missed(key)); }
    case InsertNew(cpu) =>
      var key, n := s.handlers[cpu].key, |s.handlers|;
      SumSeqOne(n, cpu);
      CountersSet(s.counts, key, OneAt(n, cpu));
      InFlightUpdate(s.handlers, cpu, Idle);
    case InsertRefused(cpu) =>
      InFlightUpdate(s.handlers, cpu, Refused(s.handlers[cpu].key));
    case Retry(cpu) =>
      var key := s.handlers[cpu].key;
      if key in s.counts { BumpedCounts(s, cpu, key); } else {
        SumSeqUpdate(s.lost, cpu, s.lost[cpu] + 1);
        InFlightUpdate(s.handlers, cpu, Idle);
      }
  }

  lemma KernelShape(s: State, step: Step)
    requires Shaped(s) && Kernel(step) && Enabled(s, step)
    ensures Shaped(Next(s, step))
  {
  }

  lemma KernelStep(s: State, step: Step)
    requires Inv(s) && Kernel(step) && Enabled(s, step)
    ensures Inv(Next(s, step))
  {
    KernelShape(s, step);
    KernelAccounts(s, step);
    assert !s.finished;
  }

  lemma HostStep(s: State, step: Step)
    requires Inv(s) && Enabled(s, step) && (step.Attach? || step.Detach? || step.Finish?)
    ensures Inv(Next(s, step))
  {
  }

  lemma OpenStep(s: State, step: Step)
    requires Inv(s) && Enabled(s, step) && (step.OpenScan? || step.ReadFailures? || step.EndScan? || step.AbortScan?)
    ensures Inv(Next(s, step))
  {
  }

  lemma ReadStep(s: State, step: Step)
    requires Inv(s) && Enabled(s, step) && step.ReadEntry?
    ensures Inv(Next(s, step))
  {
    TakeConserves(s.books, step.key, SumSeq(s.counts[step.key]), step.user, step.kernel);
  }

  lemma StepKeepsInv(s: State, step: Step)
    requires Inv(s) && Enabled(s, step)
    ensures Inv(Next(s, step))
  {
    if Kernel(step) { KernelStep(s, step); }
    else if step.ReadEntry? { ReadStep(s, step); }
    else if step.Attach? || step.Detach? || step.Finish? { HostStep(s, step); }
    else { OpenStep(s, step); }
  }

  // ---- Whole runs ----

  ghost predicate CanRun(s: State, steps: seq<Step>)
    decreases |steps|
  {
    steps == [] || (Enabled(s, steps[0]) && CanRun(Next(s, steps[0]), steps[1..]))
  }

  ghost function Run(s: State, steps: seq<Step>): State
    requires CanRun(s, steps)
    decreases |steps|
  {
    if steps == [] then s else Run(Next(s, steps[0]), steps[1..])
  }

  lemma {:induction false} RunKeepsInv(s: State, steps: seq<Step>)
    requires Inv(s) && CanRun(s, steps)
    ensures Inv(Run(s, steps))
    decreases |steps|
  {
    if steps == [] {
    } else {
      StepKeepsInv(s, steps[0]);
      RunKeepsInv(Next(s, steps[0]), steps[1..]);
    }
  }

  lemma {:induction false} AllIdle(hs: seq<Handler>)
    requires forall c :: 0 <= c < |hs| ==> hs[c].Idle?
    ensures InFlight(hs) == 0
  {
    if hs == [] {
    } else {
      AllIdle(hs[1..]);
    }
  }

  lemma InitialInv(s: State)
    requires Initial(s)
    ensures Inv(s)
  {
    SumSeqZero(s.attempts);
    SumSeqZero(s.lost);
    AllIdle(s.handlers);
    assert Totals(s.counts) == map[];
  }

  /** Reached by some interleaving of handlers, host and reader. */
  ghost predicate Reached(s: State) {
    exists s0, steps :: Initial(s0) && CanRun(s0, steps) && s == Run(s0, steps)
  }

  lemma ReachedInv(s: State)
    requires Reached(s)
    ensures Inv(s)
  {
    var s0, steps :| Initial(s0) && CanRun(s0, steps) && s == Run(s0, steps);
    InitialInv(s0);
    RunKeepsInv(s0, steps);
  }

  /**
    At every moment of every interleaving: the tree and the failed samples
    together are exactly what was read, per task as in total, and never more
    than what the handlers counted; every attempt is counted, lost or in flight.
   */
  lemma SamplesConserved(s: State)
    requires Reached(s)
    ensures var d := s.books.data;
            && d.root.samples + d.quality.failed == Total(s.books.seen) == Total(d.tasks)
            && Total(s.books.seen) <= Total(Totals(s.counts))
            && (forall k :: k in s.books.seen ==> k in s.counts && s.books.seen[k] <= SumSeq(s.counts[k]))
            && 2 * d.root.samples == d.quality.userStacks + d.quality.kernelStacks + d.quality.partial
            && SumSeq(s.attempts) == Total(Totals(s.counts)) + SumSeq(s.lost) + InFlight(s.handlers)
  {
    ReachedInv(s);
    TotalBound(s.books.seen, Totals(s.counts));
  }

  /** After the final drain every kernel attempt is in the tree, failed, or reported lost. */
  lemma FinalDrainAccounts(s: State)
    requires Reached(s) && s.drained
    ensures var d := s.books.data;
            d.root.samples + d.quality.failed + d.quality.mapFailures == d.quality.attempted
  {
    ReachedInv(s);
    AllIdle(s.handlers);
    TotalBound(s.books.seen, Totals(s.counts));
    TotalRead(Totals(s.counts), s.books.seen);
  }

  /** A total read completely is the total of what was seen. */
  lemma {:induction false} TotalRead(counts: map<Key, nat>, seen: map<Key, nat>)
    requires forall k :: k in counts ==> Get(seen, k) == counts[k]
    ensures Total(counts) <= Total(seen)
    decreases |counts|
  {
    if counts == map[] {
    } else {
      var k :| k in counts;
      TotalWithout(counts, k);
      if k in seen {
        TotalWithout(seen, k);
        TotalRead(counts - {k}, seen - {k});
      } else {
        TotalRead(counts - {k}, seen);
      }
    }
  }

  /** Reading again after the final drain changes no count. */
  lemma DrainedStaysPut(s: State, step: Step)
    requires Reached(s) && s.drained && Enabled(s, step)
    ensures var t := Next(s, step);
            && t.drained
            && t.books.seen == s.books.seen
            && t.books.data.root == s.books.data.root
            && t.books.data.quality == s.books.data.quality
            && t.books.data.tasks == s.books.data.tasks
  {
    ReachedInv(s);
    assert !Kernel(step);
  }

  /** A quiet scan is completed by reading what is left, one counter after the other. */
  lemma {:induction false} ScanCompletes(s: State) returns (steps: seq<Step>)
    requires s.reader.Scanning? && s.reader.quiet && s.reader.todo <= s.counts.Keys
    ensures CanRun(s, steps) && Run(s, steps).drained
    decreases |s.reader.todo|
  {
    if s.reader.todo == {} {
      steps := [EndScan];
      RunOne(s, EndScan, []);
    } else {
      var key :| key in s.reader.todo;
      var step := ReadEntry(key, [], []);
      assert s.reader.todo - {key} < s.reader.todo;
      var rest := ScanCompletes(Next(s, step));
      steps := [step] + rest;
      RunOne(s, step, rest);
    }
  }

  lemma RunOne(s: State, step: Step, rest: seq<Step>)
    requires Enabled(s, step) && CanRun(Next(s, step), rest)
    ensures CanRun(s, [step] + rest) && Run(s, [step] + rest) == Run(Next(s, step), rest)
  {
    hide Enabled, Next;
    assert ([step] + rest)[1..] == rest;
  }

  /** Once finished, the final drain can always be reached, also from within a scan. */
  lemma DrainTerminates(s: State) returns (steps: seq<Step>)
    requires s.finished
    ensures CanRun(s, steps) && Run(s, steps).drained
    decreases if s.reader.Resting? then 0 else 1
  {
    if s.reader.Resting? {
      var t := Next(s, OpenScan(0));
      var u := Next(t, ReadFailures);
      steps := ScanCompletes(u);
      RunOne(t, ReadFailures, steps);
      RunOne(s, OpenScan(0), [ReadFailures] + steps);
      steps := [OpenScan(0)] + ([ReadFailures] + steps);
    } else {
      steps := DrainTerminates(Next(s, AbortScan));
      RunOne(s, AbortScan, steps);
      steps := [AbortScan] + steps;
    }
  }

  // ---- The poll as a run ----

  /** Steps that may happen while a scan reads its counters: reads, and whatever handlers and host do meanwhile. */
  predicate During(step: Step) { !step.OpenScan? && !step.ReadFailures? }

  predicate Elsewhere(step: Step) { Kernel(step) || step.Attach? || step.Detach? || step.Finish? }

  /** The entries a run reads, each with the slots it finds. */
  ghost function Reads(s: State, steps: seq<Step>): seq<Result<Entry, ()>>
    requires CanRun(s, steps)
    decreases |steps|
  {
    if steps == [] then []
    else
      var step := steps[0];
      (if step.ReadEntry? then [Ok(Entry(step.key, s.counts[step.key], step.user, step.kernel))] else [])
      + Reads(Next(s, step), steps[1..])
  }

  /** What the books become is what the reader's loop computes from the entries it was handed. */
  lemma {:induction false} ScanRefines(s: State, steps: seq<Step>)
    requires CanRun(s, steps) && forall i :: 0 <= i < |steps| ==> During(steps[i])
    ensures Run(s, steps).books == TakeAll(s.books, Reads(s, steps))
    decreases |steps|
  {
    hide Take;
    if steps == [] {
    } else {
      var step := steps[0];
      var later := Reads(Next(s, step), steps[1..]);
      ScanRefines(Next(s, step), steps[1..]);
      DuringBooks(s, step);
      if step.ReadEntry? {
        var e := Entry(step.key, s.counts[step.key], step.user, step.kernel);
        hide Next, Enabled;
        assert ([Ok(e)] + later)[1..] == later;
        assert Reads(s, steps) == [Ok(e)] + later;
      } else {
        hide Next, Enabled;
        assert Reads(s, steps) == later;
      }
    }
  }

  lemma DuringBooks(s: State, step: Step)
    requires Enabled(s, step) && During(step)
    ensures Next(s, step).books ==
            if step.ReadEntry? then Take(s.books, step.key, SumSeq(s.counts[step.key]), step.user, step.kernel)
            else s.books
  {
    hide Take;
  }

  lemma {:induction false} ElsewhereBooks(s: State, steps: seq<Step>)
    requires CanRun(s, steps) && forall i :: 0 <= i < |steps| ==> Elsewhere(steps[i])
    ensures Run(s, steps).books == s.books && Run(s, steps).reader == s.reader
    decreases |steps|
  {
    if steps == [] {
    } else {
      ElsewhereBooks(Next(s, steps[0]), steps[1..]);
    }
  }

  lemma {:induction false} RunConcat(s: State, a: seq<Step>, b: seq<Step>)
    requires CanRun(s, a) && CanRun(Run(s, a), b)
    ensures CanRun(s, a + b) && Run(s, a + b) == Run(Run(s, a), b)
    decreases |a|
  {
    hide Enabled, Next;
    if a == [] {
      assert a + b == b;
    } else {
      assert (a + b)[1..] == a[1..] + b;
      RunConcat(Next(s, a[0]), a[1..], b);
    }
  }

  lemma ReachedRun(s: State, steps: seq<Step>)
    requires Reached(s) && CanRun(s, steps)
    ensures Reached(Run(s, steps))
  {
    hide Initial, Enabled, Next;
    var s0, before :| Initial(s0) && CanRun(s0, before) && s == Run(s0, before);
    RunConcat(s0, before, steps);
  }

  lemma ReachedNext(s: State, step: Step)
    requires Reached(s) && Enabled(s, step)
    ensures Reached(Next(s, step))
  {
    hide Reached, Next, Enabled;
    RunOne(s, step, []);
    ReachedRun(s, [step] + []);
  }

  /**
    A poll of the sampler is a run of the protocol. It reads the attempts, then the losses, then the counters, while
    handlers and host go on: the books of the state it ends in are what `Sampler.Poll` makes of those readings, and
    that state is reached, so every conservation law holds of the sampler's own fields.
   */
  lemma PollRefines(s: State, now: nat, between: seq<Step>, scan: seq<Step>)
    requires Reached(s) && Enabled(s, OpenScan(now))
    requires CanRun(Next(s, OpenScan(now)), between) && forall i :: 0 <= i < |between| ==> Elsewhere(between[i])
    ensures var t := Run(Next(s, OpenScan(now)), between); Enabled(t, ReadFailures)
    ensures var t := Run(Next(s, OpenScan(now)), between);
            CanRun(Next(t, ReadFailures), scan) && (forall i :: 0 <= i < |scan| ==> During(scan[i])) ==>
              var u := Next(t, ReadFailures);
              && Run(u, scan).books == TakeAll(Opened(s.books, SumSeq(s.attempts), SumSeq(t.lost)), Reads(u, scan))
              && Reached(Run(u, scan))
  {
    var o := Next(s, OpenScan(now));
    ElsewhereBooks(o, between);
    var t := Run(o, between);
    var u := Next(t, ReadFailures);
    OpenedBooks(s, now, t);
    ReachedNext(s, OpenScan(now));
    ReachedRun(o, between);
    ReachedNext(t, ReadFailures);
    if CanRun(u, scan) && forall i :: 0 <= i < |scan| ==> During(scan[i]) {
      ScanRefines(u, scan);
      ReachedRun(u, scan);
    }
  }

  lemma OpenedBooks(s: State, now: nat, t: State)
    requires Enabled(s, OpenScan(now)) && t.books == Next(s, OpenScan(now)).books && t.reader.Opening?
    ensures Next(t, ReadFailures).books == Opened(s.books, SumSeq(s.attempts), SumSeq(t.lost))
  {
  }

  /** A finished capture can always be brought to account for every attempt. */
  lemma FinishedAccounts(s: State) returns (steps: seq<Step>)
    requires Reached(s) && s.finished
    ensures CanRun(s, steps)
    ensures var d := Run(s, steps).books.data;
            d.root.samples + d.quality.failed + d.quality.mapFailures == d.quality.attempted
  {
    hide Reached;
    steps := DrainTerminates(s);
    ReachedRun(s, steps);
    FinalDrainAccounts(Run(s, steps));
  }

  // ---- What a run has read ----

  lemma OpeningAgrees(s: State, step: Step, es: seq<Entry>)
    requires Enabled(s, step) && !step.ReadEntry? && Agrees(s.books, es)
    ensures Agrees(Next(s, step).books, es)
  {
    hide Agrees;
    SameBooks(s, step);
    SameAgrees(s.books, Next(s, step).books);
    assert es + [] == es;
  }

  lemma SameBooks(s: State, step: Step)
    requires Enabled(s, step) && !step.ReadEntry?
    ensures var b, c := s.books, Next(s, step).books;
            var q := c.data.quality;
            && b.seen == c.seen
            && c.data == b.data.(kind := c.data.kind, quality :=
                                 b.data.quality.(attempted := q.attempted, mapFailures := q.mapFailures))
  {
    hide SumSeq;
  }

  /** Along a run the books agree with the readings so far. */
  lemma {:induction false} RunAgrees(s: State, steps: seq<Step>, es: seq<Entry>)
    requires Inv(s) && CanRun(s, steps) && Agrees(s.books, es)
    ensures Agrees(Run(s, steps).books, es + Handed(Reads(s, steps)))
    decreases |steps|
  {
    hide Agrees, Inv, SumSeq;
    if steps == [] {
      assert es + [] == es;
    } else {
      var step := steps[0];
      var later := Reads(Next(s, step), steps[1..]);
      StepKeepsInv(s, step);
      if step.ReadEntry? {
        var e := Entry(step.key, s.counts[step.key], step.user, step.kernel);
        ReadingCpu(s);
        TakeAgrees(s.books, es, e);
        RunAgrees(Next(s, step), steps[1..], es + [e]);
        assert ([Ok(e)] + later)[1..] == later;
        assert es + [e] + Handed(later) == es + ([e] + Handed(later));
      } else {
        OpeningAgrees(s, step, es);
        RunAgrees(Next(s, step), steps[1..], es);
        assert [] + later == later;
      }
    }
  }

  lemma ReadingCpu(s: State)
    requires Inv(s) && s.reader.Scanning?
    ensures s.books.data.kind == Cpu
  {
  }

  /**
    In every interleaving the capture says what was read: each counter's growth went to the path of its own stack, to
    its task, and to the counts of the sorts of stacks it is of.
   */
  lemma ReadingsMeaning(s: State, steps: seq<Step>, m: Measure)
    requires Initial(s) && CanRun(s, steps)
    ensures var t := Run(s, steps);
            Reported(t.books.data, m) == Growths(t.books.data.raw, Handed(Reads(s, steps)), m)
  {
    InitialInv(s);
    FreshAgrees(s.books);
    RunAgrees(s, steps, []);
    assert [] + Handed(Reads(s, steps)) == Handed(Reads(s, steps));
  }
}
