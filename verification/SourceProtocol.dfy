/**
  A background source: the caller and its worker joined by two queues of one place,
  as the interleaved steps of both.
 */
module SourceProtocol {
  import opened Wrappers

  datatype Name = TaskMetadata | ModuleMetadata | Systemd | StorageHealth | ModulesPss | Journal | Other

  /** What the views on screen ask for. */
  datatype Demand = Demand(tasks: set<(nat, nat)>, kernelModule: Option<string>, cgroup: Option<string>,
                           device: Option<string>)

  predicate Changed(name: Name, now: Demand, before: Demand) {
    match name
    case TaskMetadata => now.tasks != before.tasks
    case ModuleMetadata => now.kernelModule != before.kernelModule
    case Systemd => now.cgroup != before.cgroup
    case StorageHealth => now.device != before.device
    case _ => false
  }

  predicate Wanted(name: Name, d: Demand) {
    match name
    case TaskMetadata => d.tasks != {}
    case ModuleMetadata => d.kernelModule.Some?
    case Systemd => d.cgroup.Some?
    case StorageHealth => d.device.Some?
    case _ => true
  }

  function Interval(name: Name): nat {
    match name
    case ModulesPss => 5000
    case TaskMetadata => 5000
    case Journal => 5000
    case ModuleMetadata => 30000
    case Systemd => 30000
    case StorageHealth => 30000
    case Other => 1000
  }

  // ---- What a source is asked for ----

  const NOTHING := Demand({}, None, None, None)

  /** The part of a demand a source goes by. */
  function Concern(name: Name, d: Demand): Demand {
    match name
    case TaskMetadata => NOTHING.(tasks := d.tasks)
    case ModuleMetadata => NOTHING.(kernelModule := d.kernelModule)
    case Systemd => NOTHING.(cgroup := d.cgroup)
    case StorageHealth => NOTHING.(device := d.device)
    case _ => NOTHING
  }

  /** Sources that collect whatever is on screen. */
  predicate Untargeted(name: Name) { name.ModulesPss? || name.Journal? || name.Other? }

  /** A demand has changed, and is one at all, by the part the source goes by; requests are 5, 30 or 1 s apart. */
  lemma DemandIff(name: Name, now: Demand, before: Demand)
    ensures Changed(name, now, before) <==> Concern(name, now) != Concern(name, before)
    ensures Wanted(name, now) <==> Untargeted(name) || Concern(name, now) != NOTHING
    ensures Interval(name) == if name in {ModulesPss, TaskMetadata, Journal} then 5000
                              else if name in {ModuleMetadata, Systemd, StorageHealth} then 30000 else 1000
  {
  }

  /** Both queues have one place. */
  const PLACES: nat := 1

  /** Requests and results are known by the number of the request. */
  datatype Wire = Wire(requests: seq<nat>, working: Option<nat>, results: seq<nat>)

  /** Where the caller is in its update. */
  datatype Phase = Draining | Deciding | Sending(at: nat)

  datatype Caller = Caller(latest: Option<nat>, pending: bool, nextDue: nat, demand: Demand, phase: Phase)

  datatype Event = Accepted(at: nat) | Renewed

  /** What happened: requests accepted and refused by the queue, results delivered and dropped. */
  datatype Past = Past(accepted: nat, refused: nat, delivered: nat, dropped: nat, log: seq<Event>)

  datatype State = State(name: Name, wire: Wire, caller: Caller, past: Past)

  // ---- Steps ----

  function Received(s: State): State
    requires s.wire.results != []
  {
    s.(wire := s.wire.(results := s.wire.results[1..]),
       caller := s.caller.(latest := Some(s.wire.results[0]), pending := false),
       past := s.past.(delivered := s.past.delivered + 1))
  }

  /** A change of what this source is asked for makes it due. */
  function Heard(s: State, d: Demand): State {
    if Changed(s.name, d, s.caller.demand)
    then s.(caller := s.caller.(nextDue := 0, demand := d), past := s.past.(log := s.past.log + [Renewed]))
    else s
  }

  function Decided(s: State, at: nat, d: Demand): State {
    var t := Heard(s, d);
    if t.caller.pending || at < t.caller.nextDue || !Wanted(t.name, d)
    then t.(caller := t.caller.(phase := Draining))
    else t.(caller := t.caller.(phase := Sending(at)))
  }

  function Sent(s: State): State
    requires s.caller.phase.Sending?
  {
    var at := s.caller.phase.at;
    if |s.wire.requests| < PLACES then
      s.(wire := s.wire.(requests := s.wire.requests + [s.past.accepted]),
         caller := s.caller.(pending := true, nextDue := at + Interval(s.name), phase := Draining),
         past := s.past.(accepted := s.past.accepted + 1, log := s.past.log + [Accepted(at)]))
    else
      s.(caller := s.caller.(pending := false, phase := Draining), past := s.past.(refused := s.past.refused + 1))
  }

  function Taken(s: State): State
    requires s.wire.working.None? && s.wire.requests != []
  {
    s.(wire := s.wire.(working := Some(s.wire.requests[0]), requests := s.wire.requests[1..]))
  }

  function Answered(s: State): State
    requires s.wire.working.Some?
  {
    if |s.wire.results| < PLACES
    then s.(wire := s.wire.(working := None, results := s.wire.results + [s.wire.working.value]))
    else s.(wire := s.wire.(working := None), past := s.past.(dropped := s.past.dropped + 1))
  }

  /** One step of the caller or of the worker. */
  datatype Move = Receive | Quiet | Decide(at: nat, demand: Demand) | Send | Take | Answer

  ghost predicate Next(s: State, m: Move, t: State) {
    match m
    case Receive => s.caller.phase.Draining? && s.wire.results != [] && t == Received(s)
    case Quiet => s.caller.phase.Draining? && s.wire.results == [] && t == s.(caller := s.caller.(phase := Deciding))
    case Decide(at, d) => s.caller.phase.Deciding? && t == Decided(s, at, d)
    case Send => s.caller.phase.Sending? && t == Sent(s)
    case Take => s.wire.working.None? && s.wire.requests != [] && t == Taken(s)
    case Answer => s.wire.working.Some? && t == Answered(s)
  }

  ghost predicate Fresh(s: State) {
    && s.wire.requests == [] && s.wire.working.None? && s.wire.results == []
    && s.caller.latest.None? && !s.caller.pending && s.caller.nextDue == 0 && s.caller.phase.Draining?
    && s.past.accepted == 0 && s.past.refused == 0 && s.past.delivered == 0 && s.past.dropped == 0 && s.past.log == []
  }

  // ---- One in flight ----

  function InFlight(w: Wire): nat { |w.requests| + (if w.working.Some? then 1 else 0) + |w.results| }

  /** The items between the queues, in the order they are delivered. */
  function Items(w: Wire): seq<nat> { w.results + (if w.working.Some? then [w.working.value] else []) + w.requests }

  ghost predicate OneInFlight(s: State) {
    && Items(s.wire) == (if s.caller.pending then [s.past.accepted - 1] else [])
    && (s.caller.pending ==> s.past.accepted > 0)
    && s.past.accepted == s.past.delivered + InFlight(s.wire)
    && s.caller.latest == (if s.past.delivered == 0 then None else Some(s.past.delivered - 1))
    && s.past.refused == 0 && s.past.dropped == 0
    && (s.caller.phase.Sending? ==> !s.caller.pending && s.caller.nextDue <= s.caller.phase.at)
  }

  lemma ItemsCount(w: Wire)
    ensures |Items(w)| == InFlight(w)
  {
  }

  lemma ReceiveKeeps(s: State)
    requires OneInFlight(s) && s.wire.results != []
    ensures OneInFlight(Received(s))
  {
    ItemsCount(s.wire);
    ItemsCount(Received(s).wire);
    assert Items(s.wire) == [s.wire.results[0]] + Items(Received(s).wire);
    assert Items(s.wire)[0] == s.wire.results[0];
  }

  lemma DecideKeeps(s: State, at: nat, d: Demand)
    requires OneInFlight(s)
    ensures OneInFlight(Decided(s, at, d))
  {
  }

  lemma SendKeeps(s: State)
    requires OneInFlight(s) && s.caller.phase.Sending?
    ensures OneInFlight(Sent(s))
  {
    ItemsCount(s.wire);
    ItemsCount(Sent(s).wire);
  }

  lemma TakeKeeps(s: State)
    requires OneInFlight(s) && s.wire.working.None? && s.wire.requests != []
    ensures OneInFlight(Taken(s))
  {
    ItemsCount(s.wire);
    assert Items(Taken(s).wire) == Items(s.wire);
    ItemsCount(Taken(s).wire);
  }

  lemma AnswerKeeps(s: State)
    requires OneInFlight(s) && s.wire.working.Some?
    ensures OneInFlight(Answered(s))
  {
    ItemsCount(s.wire);
    assert Items(Answered(s).wire) == Items(s.wire);
    ItemsCount(Answered(s).wire);
  }

  lemma StepKeepsOne(s: State, m: Move, t: State)
    requires OneInFlight(s) && Next(s, m, t)
    ensures OneInFlight(t) && t.name == s.name
  {
    hide OneInFlight, Decided, Sent, Received, Taken, Answered;
    match m {
      case Receive => ReceiveKeeps(s);
      case Quiet => QuietKeeps(s);
      case Decide(at, d) => DecideKeeps(s, at, d);
      case Send => SendKeeps(s);
      case Take => TakeKeeps(s);
      case Answer => AnswerKeeps(s);
    }
    NameStays(s, m, t);
  }

  lemma QuietKeeps(s: State)
    requires OneInFlight(s)
    ensures OneInFlight(s.(caller := s.caller.(phase := Deciding)))
  {
  }

  lemma NameStays(s: State, m: Move, t: State)
    requires Next(s, m, t)
    ensures t.name == s.name
  {
  }

  // ---- Spacing ----

  ghost predicate NoneRenewed(log: seq<Event>, i: nat, j: nat) {
    forall k :: i < k < j && k < |log| ==> !log[k].Renewed?
  }

  /** Two accepted requests without a renewed demand between them are at least an interval apart. */
  ghost predicate Spaced(log: seq<Event>, interval: nat) {
    forall i: nat, j: nat :: i < j < |log| && log[i].Accepted? && log[j].Accepted? && NoneRenewed(log, i, j) ==>
      log[j].at >= log[i].at + interval
  }

  /** A request accepted since the demand was last renewed is an interval before the next one due. */
  ghost predicate DueAfter(log: seq<Event>, interval: nat, due: nat) {
    forall i: nat :: i < |log| && log[i].Accepted? && NoneRenewed(log, i, |log|) ==> due >= log[i].at + interval
  }

  ghost predicate Paced(s: State) {
    Spaced(s.past.log, Interval(s.name)) && DueAfter(s.past.log, Interval(s.name), s.caller.nextDue)
  }

  lemma NoneRenewedNext(log: seq<Event>, e: Event, i: nat, j: nat)
    ensures j <= |log| ==> NoneRenewed(log + [e], i, j) == NoneRenewed(log, i, j)
    ensures i < |log| ==> NoneRenewed(log + [e], i, |log| + 1) == (NoneRenewed(log, i, |log|) && !e.Renewed?)
  {
    var more := log + [e];
    assert more[|log|] == e;
    if j <= |log| && NoneRenewed(more, i, j) {
      forall k | i < k < j && k < |log| ensures !log[k].Renewed? { assert !more[k].Renewed?; }
    }
    if i < |log| && NoneRenewed(more, i, |log| + 1) {
      forall k | i < k < |log| ensures !log[k].Renewed? { assert !more[k].Renewed?; }
    }
  }

  lemma RenewPaces(log: seq<Event>, interval: nat, due: nat)
    requires Spaced(log, interval)
    ensures Spaced(log + [Renewed], interval) && DueAfter(log + [Renewed], interval, 0)
  {
    hide NoneRenewed;
    forall i: nat, j: nat { NoneRenewedNext(log, Renewed, i, j); }
  }

  lemma AcceptPaces(log: seq<Event>, interval: nat, due: nat, at: nat)
    requires Spaced(log, interval) && DueAfter(log, interval, due) && at >= due
    ensures Spaced(log + [Accepted(at)], interval) && DueAfter(log + [Accepted(at)], interval, at + interval)
  {
    hide NoneRenewed;
    forall i: nat, j: nat { NoneRenewedNext(log, Accepted(at), i, j); }
  }

  lemma StepKeepsPace(s: State, m: Move, t: State)
    requires OneInFlight(s) && Paced(s) && Next(s, m, t)
    ensures Paced(t)
  {
    hide Spaced, DueAfter, Items;
    match m {
      case Decide(at, d) =>
        if Changed(s.name, d, s.caller.demand) { RenewPaces(s.past.log, Interval(s.name), s.caller.nextDue); }
      case Send => AcceptPaces(s.past.log, Interval(s.name), s.caller.nextDue, s.caller.phase.at);
      case _ =>
    }
  }

  // ---- Runs ----

  ghost predicate IsRun(ss: seq<State>, ms: seq<Move>) {
    && |ss| == |ms| + 1 && Fresh(ss[0])
    && forall i :: 0 <= i < |ms| ==> Next(ss[i], ms[i], ss[i + 1])
  }

  lemma FreshHolds(s: State)
    requires Fresh(s)
    ensures OneInFlight(s) && Paced(s)
  {
  }

  lemma {:induction false} RunHolds(ss: seq<State>, ms: seq<Move>, n: nat)
    requires IsRun(ss, ms) && n < |ss|
    ensures OneInFlight(ss[n]) && Paced(ss[n]) && ss[n].name == ss[0].name
  {
    hide OneInFlight, Paced, Next, Fresh;
    if n == 0 {
      FreshHolds(ss[0]);
    } else {
      RunHolds(ss, ms, n - 1);
      assert Next(ss[n - 1], ms[n - 1], ss[n - 1 + 1]);
      StepKeepsOne(ss[n - 1], ms[n - 1], ss[n]);
      StepKeepsPace(ss[n - 1], ms[n - 1], ss[n]);
    }
  }

  /**
    In every interleaving: a request is pending exactly while one item is between the queues, no send is refused,
    no result is dropped, and accepted requests are delivered or in flight.
   */
  lemma NothingLost(ss: seq<State>, ms: seq<Move>, n: nat)
    requires IsRun(ss, ms) && n < |ss|
    ensures var s := ss[n];
            && InFlight(s.wire) == (if s.caller.pending then 1 else 0)
            && s.past.refused == 0 && s.past.dropped == 0
            && s.past.accepted == s.past.delivered + InFlight(s.wire)
            && s.caller.latest == (if s.past.delivered == 0 then None else Some(s.past.delivered - 1))
  {
    hide Paced, Next, Fresh, IsRun;
    RunHolds(ss, ms, n);
    ItemsCount(ss[n].wire);
  }

  /** In every interleaving, accepted requests keep their distance while the demand stays. */
  lemma RequestsSpaced(ss: seq<State>, ms: seq<Move>, n: nat, i: nat, j: nat)
    requires IsRun(ss, ms) && n < |ss|
    requires i < j < |ss[n].past.log| && ss[n].past.log[i].Accepted? && ss[n].past.log[j].Accepted?
    requires forall k :: i < k < j ==> !ss[n].past.log[k].Renewed?
    ensures ss[n].past.log[j].at - ss[n].past.log[i].at >= Interval(ss[0].name)
  {
    hide OneInFlight, Next, Fresh, IsRun;
    RunHolds(ss, ms, n);
    assert NoneRenewed(ss[n].past.log, i, j);
  }
}
