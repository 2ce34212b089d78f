/** What the correlator's tables and windows say about the whole history of events. */
module CorrelationHistory {
  import opened Wrappers
  import opened Correlation

  ghost predicate Fresh(s: State) {
    && s.sched.starts == map[] && s.sched.off == map[] && s.sched.offMs == map[]
    && s.sched.wake == map[] && s.sched.wakeMs == map[] && s.sched.wakeCpu == map[] && s.sched.wakeGroup == map[]
    && s.calls.open == map[] && s.calls.count == map[] && s.calls.ms == map[] && s.calls.errors == map[]
    && s.calls.errnos == map[] && s.calls.callers == map[]
    && s.irqs.open == map[] && s.irqs.ns == map[] && s.irqs.ms == map[]
    && s.moves.switches == map[] && s.moves.tasks == map[] && s.moves.groups == map[] && s.moves.cpus == map[]
    && s.lost == 0 && s.paired == 0
  }

  /** The state after a history, from a given start. */
  function Run(s: State, h: seq<Input>): State {
    if h == [] then s else Step(Run(s, h[..|h| - 1]), h[|h| - 1])
  }

  lemma RunNext(s: State, h: seq<Input>, j: nat)
    requires j < |h|
    ensures Run(s, h[..j + 1]) == Step(Run(s, h[..j]), h[j])
  {
    hide Step;
    assert h[..j + 1][..j] == h[..j];
  }

  // ---- Open intervals ----

  /** Input j ends any interval of k that was open before it. */
  ghost predicate Ends(s: State, h: seq<Input>, j: nat, k: Key)
    requires j < |h|
  {
    Cut(Run(s, h[..j]), h[j]) || Closes(h[j], k) || Exits(h[j], k)
  }

  /** Input i opens an interval of k, and nothing up to n loses, closes or exits it. */
  ghost predicate Live(s: State, h: seq<Input>, n: nat, k: Key, i: nat)
    requires n <= |h|
  {
    && i < n && Opens(h[i], k) && !Cut(Run(s, h[..i]), h[i])
    && forall j :: i < j < n ==> !Ends(s, h, j, k)
  }

  /** With input n, the live openings are the earlier ones it does not end, and perhaps itself. */
  lemma LiveNext(s: State, h: seq<Input>, n: nat, m: nat, k: Key)
    requires m == n + 1 <= |h|
    ensures forall i: nat :: Live(s, h, m, k, i) <==>
              (Live(s, h, n, k, i) && !Ends(s, h, n, k)) || (i == n && Opens(h[n], k) && !Cut(Run(s, h[..n]), h[n]))
    ensures !Live(s, h, n, k, n)
  {
    hide Run, Cut, Closes, Exits, Opens, Ends;
    forall i: nat | i < n
      ensures Live(s, h, m, k, i) <==> Live(s, h, n, k, i) && !Ends(s, h, n, k)
    {
      if Live(s, h, m, k, i) { assert !Ends(s, h, n, k); }
    }
  }

  lemma LiveBefore(s: State, h: seq<Input>, n: nat, k: Key)
    requires n <= |h|
    ensures forall i: nat :: Live(s, h, n, k, i) ==> i < n
  {
  }

  /** The opening a key's interval counts from: the first live one for a wakeup, else the last. */
  ghost predicate Opener(s: State, h: seq<Input>, n: nat, k: Key, i: nat)
    requires n <= |h|
  {
    && Live(s, h, n, k, i)
    && forall j: nat :: Live(s, h, n, k, j) ==> if k.Waiting? then i <= j else j <= i
  }

  ghost predicate NoneLive(s: State, h: seq<Input>, n: nat, k: Key)
    requires n <= |h|
  {
    forall i: nat :: !Live(s, h, n, k, i)
  }

  /** An interval is open exactly when it has a live opening, and it began there. */
  lemma {:induction false} OpenIffLive(s: State, h: seq<Input>, n: nat, k: Key) returns (i: nat)
    requires Fresh(s) && n <= |h|
    ensures Opened(Run(s, h[..n]), k).None? ==> NoneLive(s, h, n, k)
    ensures Opened(Run(s, h[..n]), k).Some? ==>
              Opener(s, h, n, k, i) && h[i].Event? && Opened(Run(s, h[..n]), k) == Some(h[i].at)
    decreases n
  {
    hide Step, Cut, Opens, Closes, Exits, Opened, Ends, Live;
    if n == 0 {
      i := 0;
      FreshOpen(s, k);
      NoneLiveYet(s, h, k);
    } else {
      i := OpenIffLive(s, h, n - 1, k);
      RunNext(s, h, n - 1);
      hide Run;
      var t := Run(s, h[..n - 1]);
      KeyStep(t, h[n - 1], k);
      i := OpenNext(s, h, n - 1, n, k, i);
    }
  }

  lemma FreshOpen(s: State, k: Key)
    requires Fresh(s)
    ensures Opened(s, k).None?
  {
  }

  lemma NoneLiveYet(s: State, h: seq<Input>, k: Key)
    ensures NoneLive(s, h, 0, k)
  {
  }

  lemma OpensNotExits(e: Input, k: Key)
    ensures Opens(e, k) ==> e.Event? && !Exits(e, k)
  {
  }

  /** One more input: the table and the live openings change in step. */
  lemma OpenNext(s: State, h: seq<Input>, n: nat, m: nat, k: Key, i: nat) returns (r: nat)
    requires m == n + 1 <= |h|
    requires Opened(Run(s, h[..n]), k).None? ==> NoneLive(s, h, n, k)
    requires Opened(Run(s, h[..n]), k).Some? ==>
               Opener(s, h, n, k, i) && h[i].Event? && Opened(Run(s, h[..n]), k) == Some(h[i].at)
    requires Opened(Run(s, h[..m]), k) == if Cut(Run(s, h[..n]), h[n]) then None else Reopened(Run(s, h[..n]), h[n], k)
    ensures Opened(Run(s, h[..m]), k).None? ==> NoneLive(s, h, m, k)
    ensures Opened(Run(s, h[..m]), k).Some? ==>
              Opener(s, h, m, k, r) && h[r].Event? && Opened(Run(s, h[..m]), k) == Some(h[r].at)
  {
    hide Run, Opened, Closes, Exits, Opens, Cut;
    LiveNext(s, h, n, m, k);
    LiveBefore(s, h, n, k);
    OpensNotExits(h[n], k);
    hide Live;
    var t := Run(s, h[..n]);
    var again := Opens(h[n], k) && (!k.Waiting? || Opened(t, k).None? || Closes(h[n], k));
    r := if again then n else i;
  }

  // ---- Latencies ----

  /** Input j records v for k: it closes the interval that input i opened, v nanoseconds before. */
  ghost predicate Explains(s: State, h: seq<Input>, j: nat, k: Key, i: nat, v: nat)
    requires j < |h|
  {
    && Closes(h[j], k) && !Reused(Run(s, h[..j]), h[j], k)
    && Opener(s, h, j, k, i) && h[i].Event? && h[j].Event? && h[i].at <= h[j].at && v == h[j].at - h[i].at
  }

  /**
    A latency is recorded exactly when a closing event of the same generation meets a live opening that is not later.
   */
  lemma Latency(s: State, h: seq<Input>, j: nat, k: Key) returns (i: nat)
    requires Fresh(s) && j < |h|
    ensures Recorded(Run(s, h[..j]), h[j], k).Some? ==> Explains(s, h, j, k, i, Recorded(Run(s, h[..j]), h[j], k).value)
    ensures forall x: nat, v: nat :: Explains(s, h, j, k, x, v) ==>
            x == i && Recorded(Run(s, h[..j]), h[j], k) == Some(v)
  {
    hide Run, Opened, Reused, Live, Opens, Exits, Cut, Closes;
    i := OpenIffLive(s, h, j, k);
    if Closes(h[j], k) { ClosesEvent(h[j], k); }
  }

  lemma ClosesEvent(e: Input, k: Key)
    requires Closes(e, k)
    ensures e.Event?
  {
  }

  /** Keys of one kind: two of them are never opened by the same event. */
  predicate SameKind(k: Key, m: Key) {
    (k.Waiting? && m.Waiting?) || (k.Sleeping? && m.Sleeping?) || (k.Calling? && m.Calling?) ||
    (k.Interrupted? && m.Interrupted?)
  }

  lemma OpensOne(e: Input, k: Key, m: Key)
    requires SameKind(k, m) && Opens(e, k) && Opens(e, m)
    ensures k == m
  {
  }

  lemma LiveFacts(s: State, h: seq<Input>, n: nat, k: Key, i: nat)
    requires n <= |h| && Live(s, h, n, k, i)
    ensures i < n && Opens(h[i], k) && !Cut(Run(s, h[..i]), h[i])
    ensures forall j :: i < j < n ==> !Closes(h[j], k) && !Exits(h[j], k) && !Cut(Run(s, h[..j]), h[j])
  {
    hide Run, Opens, Closes, Exits, Cut;
    forall j | i < j < n ensures !Closes(h[j], k) && !Exits(h[j], k) && !Cut(Run(s, h[..j]), h[j]) {
      assert !Ends(s, h, j, k);
    }
  }

  /** No opening is used twice within a kind. */
  lemma OpeningUsedOnce(s: State, h: seq<Input>, j: nat, k: Key, v: nat, n: nat, m: Key, w: nat, i: nat)
    requires j < |h| && n < |h| && SameKind(k, m)
    requires Explains(s, h, j, k, i, v) && Explains(s, h, n, m, i, w)
    ensures j == n && k == m && v == w
  {
    hide Run, Opens, Closes, Exits, Cut, Live, Reused;
    LiveFacts(s, h, j, k, i);
    LiveFacts(s, h, n, m, i);
    OpensOne(h[i], k, m);
  }

  // ---- Stored samples ----

  /** Input n is noted like its latency: the window may have been emptied, may grow, and drops its oldest when full. */
  function Noted(s: State, e: Input, l: Ledger, before: seq<nat>, n: nat): seq<nat> {
    if Kept(Step(s, e), l) == [] then []
    else if Entry(s, e, l).None? then before
    else if |before| >= CAP then before[1..] + [n]
    else before + [n]
  }

  /** The inputs whose latencies a window still holds, oldest first. */
  function Journal(s: State, h: seq<Input>, l: Ledger): seq<nat> {
    if h == [] then []
    else Noted(Run(s, h[..|h| - 1]), h[|h| - 1], l, Journal(s, h[..|h| - 1], l), |h| - 1)
  }

  ghost predicate Holds(s: State, h: seq<Input>, l: Ledger, j: nat, w: real)
    requires j < |h|
  {
    Entry(Run(s, h[..j]), h[j], l).Some? && w == Ms(Entry(Run(s, h[..j]), h[j], l).value)
  }

  ghost predicate Matches(s: State, h: seq<Input>, l: Ledger, js: seq<nat>, w: Window) {
    && |js| == |w|
    && (forall x :: 0 <= x < |js| ==> js[x] < |h| && Holds(s, h, l, js[x], w[x]))
    && (forall x, y :: 0 <= x < y < |js| ==> js[x] < js[y])
  }

  lemma HoldsPrefix(s: State, h: seq<Input>, n: nat, l: Ledger, j: nat, w: real)
    requires j < n <= |h|
    ensures Holds(s, h[..n], l, j, w) == Holds(s, h, l, j, w)
  {
    hide Run, Entry, Ms;
    assert h[..n][..j] == h[..j];
  }

  lemma MatchesPrefix(s: State, h: seq<Input>, n: nat, l: Ledger, js: seq<nat>, w: Window)
    requires n <= |h| && Matches(s, h[..n], l, js, w)
    ensures Matches(s, h, l, js, w) && forall x :: 0 <= x < |js| ==> js[x] < n
  {
    hide Holds;
    forall x | 0 <= x < |js| ensures js[x] < n && Holds(s, h, l, js[x], w[x]) { HoldsPrefix(s, h, n, l, js[x], w[x]); }
  }

  lemma MatchesPush(s: State, h: seq<Input>, l: Ledger, js: seq<nat>, w: Window, n: nat, v: real)
    requires Matches(s, h, l, js, w) && n < |h| && Holds(s, h, l, n, v)
    requires forall x :: 0 <= x < |js| ==> js[x] < n
    ensures Matches(s, h, l, if |js| >= CAP then js[1..] + [n] else js + [n], Push(w, v))
  {
    hide Holds;
  }

  /** Every sample of a window is the latency of one input of its own, and they are in the order recorded. */
  lemma {:induction false} Stored(s: State, h: seq<Input>, l: Ledger)
    requires Fresh(s)
    ensures Matches(s, h, l, Journal(s, h, l), Kept(Run(s, h), l))
  {
    hide Matches, Entry, Step, Grown, Kept, Forgets, Push, Ms;
    if h == [] {
      FreshWindow(s, l);
      NoMatches(s, h, l);
    } else {
      var n := |h| - 1;
      var t := Run(s, h[..n]);
      Stored(s, h[..n], l);
      MatchesPrefix(s, h, n, l, Journal(s, h[..n], l), Kept(t, l));
      LedgerStep(t, h[n], l);
      GrownCases(t, h[n], l);
      if Kept(Step(t, h[n]), l) == [] {
        NoMatches(s, h, l);
      } else if Entry(t, h[n], l).Some? {
        MatchesPush(s, h, l, Journal(s, h[..n], l), Kept(t, l), n, Ms(Entry(t, h[n], l).value));
      }
    }
  }

  lemma FreshWindow(s: State, l: Ledger)
    requires Fresh(s)
    ensures Kept(s, l) == []
  {
  }

  lemma NoMatches(s: State, h: seq<Input>, l: Ledger)
    ensures Matches(s, h, l, [], [])
  {
  }

  lemma GrownCases(s: State, e: Input, l: Ledger)
    ensures e.Lost? ==> Entry(s, e, l).None?
    ensures Grown(s, e, l) == [] ||
            (Entry(s, e, l).None? && Grown(s, e, l) == Kept(s, l)) ||
            (Entry(s, e, l).Some? && Grown(s, e, l) == Push(Kept(s, l), Ms(Entry(s, e, l).value)))
  {
    hide Kept, Push, Ms, Recorded;
  }

  // ---- Generations ----

  /** Every switch names the start time of the thread it switches in. */
  predicate Timed(e: Input) {
    e.Event? && e.what.Switch? && e.what.next.Some? ==> e.what.start.Some? && e.what.start.value > 0
  }

  /** The start times known after an event that lost nothing. */
  lemma StartsStep(s: State, e: Input, p: nat)
    requires Timed(e) && Step(s, e).lost == s.lost
    ensures Found(Step(s, e).sched.starts, p) ==
            if e.Event? && e.what.Switch? && e.what.next == Some(p) then e.what.start
            else if e.Event? && e.what.Exit? && Gone(e) == p then None
            else Found(s.sched.starts, p)
  {
    hide Handled, Bounded, Gone;
    if e.Event? {
      HandledLost(s, e);
      StartsHandled(s, e, p);
      BoundedSame(Handled(s, e));
    }
  }

  lemma MovesSame(s: State)
    ensures BoundMoves(s).lost >= s.lost && (BoundMoves(s).lost == s.lost ==> BoundMoves(s) == s)
  {
  }

  lemma StartsSame(s: State)
    ensures BoundStarts(s).lost >= s.lost && (BoundStarts(s).lost == s.lost ==> BoundStarts(s) == s)
  {
  }

  lemma OffSame(s: State)
    ensures BoundOffMs(s).lost >= s.lost && (BoundOffMs(s).lost == s.lost ==> BoundOffMs(s) == s)
  {
  }

  lemma WakeSame(s: State)
    ensures BoundWakeMs(s).lost >= s.lost && (BoundWakeMs(s).lost == s.lost ==> BoundWakeMs(s) == s)
  {
  }

  lemma OpenSame(s: State)
    ensures BoundOpen(s).lost >= s.lost && (BoundOpen(s).lost == s.lost ==> BoundOpen(s) == s)
  {
  }

  /** Bounding without a loss changes nothing. */
  lemma BoundedSame(s: State)
    requires Bounded(s).lost == s.lost
    ensures Bounded(s) == s
  {
    hide BoundMoves, BoundStarts, BoundOffMs, BoundWakeMs, BoundOpen;
    MovesSame(s);
    StartsSame(BoundMoves(s));
    OffSame(BoundStarts(BoundMoves(s)));
    WakeSame(BoundOffMs(BoundStarts(BoundMoves(s))));
    OpenSame(BoundWakeMs(BoundOffMs(BoundStarts(BoundMoves(s)))));
  }

  lemma StartedStarts(c: Sched, q: nat, start: Option<nat>, p: nat)
    ensures Found(Started(c, q, start).starts, p) ==
            if p == q && start.Some? && start.value > 0 then start else Found(c.starts, p)
  {
    hide Renewed;
  }

  lemma OffKeepsStarts(c: Sched, q: nat, at: nat)
    ensures BackOn(c, q, at).starts == c.starts
  {
    hide Pushed;
  }

  lemma RunningKeepsStarts(c: Sched, q: nat, at: nat, cpu: nat, group: Option<nat>)
    ensures Running(c, q, at, cpu, group).starts == c.starts
  {
    hide Pushed, GroupTaken;
  }

  lemma SwitchingStarts(c: Sched, w: What, at: nat, p: nat)
    requires w.Switch?
    ensures Found(Switching(c, w, at).starts, p) ==
            if w.next == Some(p) && w.start.Some? && w.start.value > 0 then w.start else Found(c.starts, p)
  {
    hide Started, BackOn;
    if w.next.Some? {
      StartedStarts(c, w.next.value, w.start, p);
      OffKeepsStarts(Started(c, w.next.value, w.start), w.next.value, at);
    }
  }

  lemma StartsSwitched(c: Sched, w: What, at: nat, cpu: nat, p: nat)
    requires w.Switch?
    ensures Found(Switched(c, w, at, cpu).starts, p) ==
            if w.next == Some(p) && w.start.Some? && w.start.value > 0 then w.start else Found(c.starts, p)
  {
    hide Switching, Running;
    SwitchingStarts(c, w, at, p);
    if w.next.Some? { RunningKeepsStarts(Switching(c, w, at), w.next.value, at, cpu, w.cgroup); }
  }

  lemma StartsHandled(s: State, e: Input, p: nat)
    requires Timed(e) && e.Event?
    ensures Found(Handled(s, e).sched.starts, p) ==
            if e.what.Switch? && e.what.next == Some(p) then e.what.start
            else if e.what.Exit? && Gone(e) == p then None
            else Found(s.sched.starts, p)
  {
    hide Returned, Finished, Moved, Switched, Switching, Answers;
    if e.what.Switch? { StartsSwitched(s.sched, e.what, e.at, e.cpu, p); }
  }

  lemma LostGrows(s: State, e: Input)
    ensures Step(s, e).lost >= s.lost
  {
    hide Handled, Bounded;
    if e.Event? {
      HandledLost(s, e);
      BoundedOpen(Handled(s, e), Calling(0));
    }
  }

  /** Input j switched the thread in, under this start time. */
  ghost predicate SwitchedIn(h: seq<Input>, j: nat, p: nat, start: Option<nat>) {
    j < |h| && h[j].Event? && h[j].what.Switch? && h[j].what.next == Some(p) && h[j].what.start == start
  }

  lemma WakeFacts(s: State, e: Input, p: nat)
    ensures Entry(s, e, WakeMs(p)).Some? ==> e.Event? && e.what.Switch? && e.what.next == Some(p)
    ensures e.Event? && e.what.Exit? && Gone(e) == p ==> Forgets(s, e, WakeMs(p))
    ensures e.Event? && e.what.Switch? && e.what.next == Some(p) && !Forgets(s, e, WakeMs(p)) && Timed(e) ==>
              p !in s.sched.starts || Found(s.sched.starts, p) == e.what.start
  {
  }

  lemma JournalMembers(s: State, h: seq<Input>, l: Ledger, j: nat)
    requires h != [] && j in Journal(s, h, l)
    ensures var n := |h| - 1; var t := Run(s, h[..n]);
            && Kept(Step(t, h[n]), l) != []
            && (j in Journal(s, h[..n], l) || (j == n && Entry(t, h[n], l).Some?))
  {
    hide Run, Entry, Step, Kept;
  }

  /** One more input, for an entry that is already there or new. */
  lemma GenerationStep(s: State, h: seq<Input>, p: nat, j: nat)
    requires h != [] && j in Journal(s, h, WakeMs(p)) && (forall e :: e in h ==> Timed(e))
    requires var t := Run(s, h[..|h| - 1]); Step(t, h[|h| - 1]).lost == t.lost
    requires j in Journal(s, h[..|h| - 1], WakeMs(p)) ==>
      SwitchedIn(h[..|h| - 1], j, p, Found(Run(s, h[..|h| - 1]).sched.starts, p))
    ensures SwitchedIn(h, j, p, Found(Run(s, h).sched.starts, p))
  {
    hide Entry, Step, Grown, Kept, Forgets, Push, Ms, Journal;
    var n := |h| - 1;
    var t := Run(s, h[..n]);
    assert h[n] in h;
    StartsStep(t, h[n], p);
    LedgerStep(t, h[n], WakeMs(p));
    WakeFacts(t, h[n], p);
    JournalMembers(s, h, WakeMs(p), j);
    ForgetsAll(t, h[n], WakeMs(p));
    SwitchedInTimed(h[..n], j, p, Found(t.sched.starts, p));
  }

  lemma SwitchedInTimed(h: seq<Input>, j: nat, p: nat, start: Option<nat>)
    requires forall e :: e in h ==> Timed(e)
    ensures SwitchedIn(h, j, p, start) ==> start.Some?
  {
    if SwitchedIn(h, j, p, start) { assert h[j] in h; }
  }

  lemma ForgetsAll(s: State, e: Input, l: Ledger)
    ensures Forgets(s, e, l) ==> Grown(s, e, l) == []
  {
  }

  lemma JournalEmpty(s: State, l: Ledger)
    ensures Journal(s, [], l) == []
  {
  }

  /** While nothing is lost, each wakeup latency kept for a thread was completed by the generation now known. */
  lemma {:induction false} Generation(s: State, h: seq<Input>, p: nat)
    requires Fresh(s) && (forall e :: e in h ==> Timed(e)) && Run(s, h).lost == 0
    ensures forall j :: j in Journal(s, h, WakeMs(p)) ==> SwitchedIn(h, j, p, Found(Run(s, h).sched.starts, p))
  {
    hide Entry, Step, Kept, Timed, SwitchedIn, Journal;
    if h == [] {
      JournalEmpty(s, WakeMs(p));
    } else {
      var n := |h| - 1;
      LostGrows(Run(s, h[..n]), h[n]);
      Generation(s, h[..n], p);
      forall j | j in Journal(s, h, WakeMs(p)) ensures SwitchedIn(h, j, p, Found(Run(s, h).sched.starts, p)) {
        GenerationStep(s, h, p, j);
      }
    }
  }

  // ---- Counters ----

  lemma FreshCounts(s: State, c: Counter)
    requires Fresh(s)
    ensures Counted(s, c) == 0
  {
  }
}
