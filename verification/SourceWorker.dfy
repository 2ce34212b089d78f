/** The caller's update and the worker's loop body, in place over the two queues. */
module SourceWorker {
  import opened Wrappers
  import opened SourceProtocol

  class Source {
    const name: Name
    var requests: seq<nat>
    var working: Option<nat>
    var results: seq<nat>
    var latest: Option<nat>
    var pending: bool
    var nextDue: nat
    var demand: Demand
    /** Numbers the requests and keeps the account. */
    var past: Past

    /** Between updates the caller is about to drain. */
    ghost function Now(): State
      reads this
    {
      State(name, Wire(requests, working, results), Caller(latest, pending, nextDue, demand, Draining), past)
    }

    ghost predicate Valid()
      reads this
    {
      OneInFlight(Now()) && Paced(Now())
    }

    constructor (name: Name, demand: Demand)
      ensures Valid() && Fresh(Now()) && this.name == name && this.demand == demand
    {
      this.name := name;
      requests, working, results := [], None, [];
      latest, pending, nextDue := None, false, 0;
      this.demand := demand;
      past := Past(0, 0, 0, 0, []);
      new;
      FreshHolds(Now());
    }

    /** Takes the results that are there. */
    method Drain()
      requires Valid()
      modifies this
      ensures Valid() && results == []
      ensures Now() == if old(results) == [] then old(Now()) else Received(old(Now()))
    {
      hide OneInFlight, Paced;
      AtMostOne(Now());
      while results != []
        invariant Valid()
        invariant Now() == old(Now()) || (old(results) != [] && Now() == Received(old(Now())) && results == [])
        decreases |results|
      {
        ReceiveKeeps(Now());
        StepKeepsPace(Now(), Receive, Received(Now()));
        latest := Some(results[0]);
        results := results[1..];
        pending := false;
        past := past.(delivered := past.delivered + 1);
      }
    }

    /** `Source::update`: drain, hear the demand, and send a request if one is due, wanted and none is pending. */
    method Update(at: nat, now: Demand)
      requires Valid()
      modifies this
      ensures Valid() && results == []
      ensures Now() ==
        var s := if old(results) == [] then old(Now()) else Received(old(Now()));
        var t := Decided(s, at, now);
        if t.caller.phase.Sending? then Sent(t) else t
      ensures var idle := !old(pending) || old(results) != [];
              var anew := Concern(name, now) != Concern(name, old(demand));
              var sends := && idle && (anew || at >= old(nextDue))
                           && (Untargeted(name) || Concern(name, now) != NOTHING);
              var gap := if name in {ModulesPss, TaskMetadata, Journal} then 5000
                         else if name in {ModuleMetadata, Systemd, StorageHealth} then 30000 else 1000;
              && requests == old(requests) + (if sends then [old(past.accepted)] else [])
              && pending == (sends || !idle) && working == old(working)
              && nextDue == (if sends then at + gap else if anew then 0 else old(nextDue))
              && demand == (if anew then now else old(demand))
              && latest == (if old(results) != [] then Some(old(results)[0]) else old(latest))
    {
      DemandIff(name, now, demand);
      hide OneInFlight, Paced, Changed, Wanted, Interval, Concern, Untargeted;
      ghost var first := Now();
      Drain();
      ghost var s := Now();
      ghost var t := Decided(s, at, now);
      DecideKeeps(s, at, now);
      DecidePaces(s, at, now);
      if Changed(name, now, demand) {
        nextDue := 0;
        demand := now;
        past := past.(log := past.log + [Renewed]);
      }
      if pending || at < nextDue || !Wanted(name, now) { return; }
      pending := |requests| < PLACES;
      if pending {
        requests := requests + [past.accepted];
        nextDue := at + Interval(name);
        past := past.(accepted := past.accepted + 1, log := past.log + [Accepted(at)]);
      } else {
        past := past.(refused := past.refused + 1);
      }
      SendKeeps(t);
      StepKeepsPace(t, Send, Sent(t));
      NoRequests(first);
    }

    /** The worker waits for a request. */
    method Take()
      requires Valid() && working.None? && requests != []
      modifies this
      ensures Valid() && Now() == Taken(old(Now()))
    {
      hide OneInFlight, Paced;
      TakeKeeps(Now());
      StepKeepsPace(Now(), SourceProtocol.Take, Taken(Now()));
      working := Some(requests[0]);
      requests := requests[1..];
    }

    /** The worker offers its result, and goes on if the queue is full. */
    method Answer()
      requires Valid() && working.Some?
      modifies this
      ensures Valid() && Now() == Answered(old(Now()))
    {
      hide OneInFlight, Paced;
      ghost var s := Now();
      if |results| < PLACES {
        results := results + [working.value];
      } else {
        past := past.(dropped := past.dropped + 1);
      }
      working := None;
      AnswerKeeps(s);
      StepKeepsPace(s, SourceProtocol.Answer, Answered(s));
      assert Now() == Answered(s);
    }
  }

  lemma DecidePaces(s: State, at: nat, d: Demand)
    requires OneInFlight(s) && Paced(s)
    ensures Paced(Decided(s, at, d))
  {
    var deciding := s.(caller := s.caller.(phase := Deciding));
    QuietKeeps(s);
    assert Decided(deciding, at, d) == Decided(s, at, d);
    StepKeepsPace(deciding, Decide(at, d), Decided(s, at, d));
  }

  /** Without a request pending, or with its result waiting, no request is queued. */
  lemma NoRequests(s: State)
    requires OneInFlight(s) && (!s.caller.pending || s.wire.results != [])
    ensures s.wire.requests == []
  {
    ItemsCount(s.wire);
  }

  lemma AtMostOne(s: State)
    requires OneInFlight(s)
    ensures |s.wire.results| <= 1
  {
    ItemsCount(s.wire);
  }
}
