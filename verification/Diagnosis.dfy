/**
  What one subject's baseline, streak, clear window and absence do over a whole run of updates,
  and what an issue's state says about that run.
 */
module Diagnosis {
  import opened Wrappers
  import opened Numbers

  // ---- Baselines ----

  datatype Baseline = Baseline(count: nat, mean: real, variance: real, since: nat, last: nat)

  function Unlearned(): Baseline { Baseline(0, 0.0, 0.0, 0, 0) }

  /** `Baseline::add`. */
  function Add(b: Baseline, value: real, now: nat): Baseline {
    var d := value - b.mean;
    if b.count == 0 then b.(last := now, mean := value, since := now, count := 1)
    else b.(last := now, mean := b.mean + 0.02 * d, variance := 0.98 * (b.variance + 0.02 * d * d),
            count := b.count + 1)
  }

  const READY_COUNT: nat := 1800
  const READY_MS: nat := 1800000

  predicate Ready(b: Baseline, now: nat) { b.count >= READY_COUNT && SaturatingSub(now, b.since) >= READY_MS }

  /** The baseline after a run of (value, time) pairs. */
  function Learn(values: seq<(real, nat)>): Baseline {
    if values == [] then Unlearned()
    else Add(Learn(values[..|values| - 1]), values[|values| - 1].0, values[|values| - 1].1)
  }

  ghost predicate Within(b: Baseline, low: real, high: real) {
    low <= b.mean <= high && 0.0 <= b.variance <= (high - b.mean) * (b.mean - low)
  }

  lemma Product(x: real, y: real)
    requires x >= 0.0 && y >= 0.0
    ensures x * y >= 0.0
  {
  }

  lemma Square(x: real)
    ensures x * x >= 0.0
  {
    if x < 0.0 { Product(-x, -x); assert (-x) * (-x) == x * x; } else { Product(x, x); }
  }

  /** The spread function is concave: one step of the mean gains at least the step's own spread. */
  lemma Concave(x: real, v: real, low: real, high: real)
    ensures var y := x + 0.02 * (v - x); var d := v - x;
            (high - y) * (y - low) ==
            0.98 * ((high - x) * (x - low)) + 0.02 * ((high - v) * (v - low)) + 0.98 * 0.02 * (d * d)
  {
    var d := v - x;
    var a, c := high - x, x - low;
    assert (high - v) * (v - low) == (a - d) * (c + d) == a * c + a * d - d * c - d * d;
    assert (a - 0.02 * d) * (c + 0.02 * d) == a * c + 0.02 * (a * d) - 0.02 * (d * c) - 0.0004 * (d * d);
  }

  lemma AddWithin(b: Baseline, value: real, now: nat, low: real, high: real)
    requires low <= value <= high && b.count > 0 && Within(b, low, high)
    ensures Within(Add(b, value, now), low, high)
  {
    var d := value - b.mean;
    Concave(b.mean, value, low, high);
    Product(high - value, value - low);
    Square(d);
    assert 0.02 * d * d == 0.02 * (d * d);
  }

  lemma {:induction false} LearnWithin(values: seq<(real, nat)>, low: real, high: real)
    requires values != [] && forall i :: 0 <= i < |values| ==> low <= values[i].0 <= high
    ensures Learn(values).count == |values| && Within(Learn(values), low, high)
  {
    var n := |values| - 1;
    if n > 0 {
      LearnWithin(values[..n], low, high);
      AddWithin(Learn(values[..n]), values[n].0, values[n].1, low, high);
    } else {
      assert values[..n] == [];
      Product(high - values[0].0, values[0].0 - low);
    }
  }

  lemma Quarter(x: real, y: real)
    ensures x * y <= ((x + y) / 2.0) * ((x + y) / 2.0)
  {
    var z := (x - y) / 2.0;
    Square(z);
    assert z * z == ((x + y) / 2.0) * ((x + y) / 2.0) - x * y;
  }

  /** A learned variance is at most a quarter of the squared range of the values. */
  lemma VarianceBound(values: seq<(real, nat)>, low: real, high: real)
    requires values != [] && forall i :: 0 <= i < |values| ==> low <= values[i].0 <= high
    ensures var b := Learn(values);
            low <= b.mean <= high && 0.0 <= b.variance <= ((high - low) / 2.0) * ((high - low) / 2.0)
  {
    hide Learn;
    LearnWithin(values, low, high);
    var b := Learn(values);
    Quarter(high - b.mean, b.mean - low);
    assert (high - b.mean) + (b.mean - low) == high - low;
  }

  // ---- One subject ----

  datatype Condition = Open | Resolved | Unavailable

  /** An issue: its state, when it began and the observation it shows. */
  datatype Issue = Issue(state: Condition, since: nat, evidence: Obs)

  /** One observed value and its fixed limit. */
  datatype Obs = Obs(value: real, limit: real)

  /** Everything the engine keeps about one key; a streak of zero is no streak. */
  datatype Subject = Subject(base: Option<Baseline>, issue: Option<Issue>, streak: nat, clear: Option<nat>,
                             absent: Option<nat>)

  const SUSTAINED: nat := 3
  const CLEAR_MS: nat := 60000
  const FORGET_MS: nat := 600000
  /** An issue is dated back by this much when it opens. */
  const OPEN_BACK_MS: nat := 2000

  function BaseOf(s: Subject): Baseline { if s.base.Some? then s.base.value else Unlearned() }

  /** Above the limit, or more than three deviations and half the mean above a ready baseline. */
  predicate Anomalous(b: Baseline, o: Obs, at: nat) {
    || o.value > o.limit
    || (Ready(b, at) && o.value > b.mean && (o.value - b.mean) * (o.value - b.mean) > 9.0 * b.variance &&
        o.value > b.mean * 1.5)
  }

  function Opening(issue: Option<Issue>, o: Obs, at: nat): Issue {
    Issue(Open, if issue.Some? then issue.value.since else SaturatingSub(at, OPEN_BACK_MS), o)
  }

  function Resolving(issue: Option<Issue>): Option<Issue> {
    if issue.Some? then Some(issue.value.(state := Resolved)) else None
  }

  /** Anomalous: a longer streak, and an open issue once it is long enough. */
  function Alarmed(s: Subject, o: Obs, at: nat): Subject {
    s.(streak := s.streak + 1, clear := None,
       issue := if s.streak + 1 >= SUSTAINED then Some(Opening(s.issue, o, at)) else s.issue)
  }

  /** Not anomalous: no streak, a clear time, and a resolved issue once that is long ago. */
  function Cleared(s: Subject, at: nat): Subject {
    var since := if s.clear.Some? then s.clear.value else at;
    s.(streak := 0, clear := Some(since),
       issue := if SaturatingSub(at, since) >= CLEAR_MS then Resolving(s.issue) else s.issue)
  }

  /** One observation of the subject; only values that are not anomalous are learned. */
  function Observed(s: Subject, o: Obs, at: nat): Subject {
    var b := BaseOf(s).(last := at);
    if Anomalous(b, o, at) then Alarmed(s.(base := Some(b)), o, at)
    else Cleared(s.(base := Some(Add(b, o.value, at))), at)
  }

  function ObservedAll(s: Subject, os: seq<Obs>, at: nat): Subject {
    if os == [] then s else Observed(ObservedAll(s, os[..|os| - 1], at), os[|os| - 1], at)
  }

  /** One update as a subject sees it. */
  datatype Tick = Tick(at: nat, reboot: bool, rescope: bool, os: seq<Obs>)

  function Begun(s: Subject, t: Tick): Subject {
    var r := if t.reboot then s.(base := None, issue := None, streak := 0, clear := None) else s;
    if t.rescope then r.(base := None) else r
  }

  /** An issue that is not observed has no data, and no streak or clear time. */
  function Silent(s: Subject): Subject {
    if s.issue.Some? then s.(clear := None, streak := 0, issue := Some(s.issue.value.(state := Unavailable))) else s
  }

  /** The absence is dated while there is something to forget. */
  function Dated(s: Subject, at: nat): Subject {
    if s.absent.None? && (s.issue.Some? || s.base.Some?) then s.(absent := Some(at)) else s
  }

  function Blank(): Subject { Subject(None, None, 0, None, None) }

  function Forgotten(s: Subject, at: nat): Subject {
    if s.absent.Some? && SaturatingSub(at, s.absent.value) >= FORGET_MS then Blank() else s
  }

  function Ticked(s: Subject, t: Tick): Subject {
    var r := Begun(s, t);
    if t.os == [] then Forgotten(Dated(Silent(r), t.at), t.at) else ObservedAll(r, t.os, t.at).(absent := None)
  }

  function Run(h: seq<Tick>): Subject {
    if h == [] then Blank() else Ticked(Run(h[..|h| - 1]), h[|h| - 1])
  }

  /** Within tick i of a run, before its observation q. */
  function Before(h: seq<Tick>, i: nat, q: nat): Subject
    requires i < |h| && q <= |h[i].os|
  {
    ObservedAll(Begun(Run(h[..i]), h[i]), h[i].os[..q], h[i].at)
  }

  /** Observation q of tick i was anomalous. */
  predicate Flag(h: seq<Tick>, i: nat, q: nat)
    requires i < |h| && q < |h[i].os|
  {
    Anomalous(BaseOf(Before(h, i, q)).(last := h[i].at), h[i].os[q], h[i].at)
  }

  lemma BeforeNext(h: seq<Tick>, i: nat, q: nat)
    requires i < |h| && q < |h[i].os|
    ensures Before(h, i, q + 1) == Observed(Before(h, i, q), h[i].os[q], h[i].at)
  {
    hide Observed, Begun, Run;
    assert h[i].os[..q + 1][..q] == h[i].os[..q];
  }

  lemma RunNext(h: seq<Tick>, i: nat)
    requires i < |h|
    ensures Run(h[..i + 1]) == Ticked(Run(h[..i]), h[i])
  {
    hide Ticked;
    assert h[..i + 1][..i] == h[..i];
  }

  lemma RunBefore(h: seq<Tick>, i: nat)
    requires i < |h| && h[i].os != []
    ensures Run(h[..i + 1]) == Before(h, i, |h[i].os|).(absent := None)
  {
    hide Observed, Begun;
    RunNext(h, i);
    assert h[i].os[..|h[i].os|] == h[i].os;
  }

  // ---- Opening: three anomalous observations in a row ----

  /** Which of the observations were anomalous, in order. */
  function Flags(s: Subject, os: seq<Obs>, at: nat): seq<bool> {
    if os == [] then []
    else
      var before := os[..|os| - 1];
      Flags(s, before, at) + [Anomalous(BaseOf(ObservedAll(s, before, at)).(last := at), os[|os| - 1], at)]
  }

  /** The verdicts of a whole run. */
  function Verdicts(h: seq<Tick>): seq<bool> {
    if h == [] then []
    else Verdicts(h[..|h| - 1]) + Flags(Begun(Run(h[..|h| - 1]), h[|h| - 1]), h[|h| - 1].os, h[|h| - 1].at)
  }

  /** The n latest verdicts are anomalous. */
  ghost predicate Trailing(log: seq<bool>, n: nat) {
    n <= |log| && forall i :: |log| - n <= i < |log| ==> log[i]
  }

  lemma {:induction false} StreakGrows(s: Subject, os: seq<Obs>, at: nat, log: seq<bool>)
    requires Trailing(log, s.streak)
    ensures Trailing(log + Flags(s, os, at), ObservedAll(s, os, at).streak)
  {
    hide Anomalous, Add;
    if os != [] {
      var before := os[..|os| - 1];
      StreakGrows(s, before, at, log);
      var f := Anomalous(BaseOf(ObservedAll(s, before, at)).(last := at), os[|os| - 1], at);
      assert log + Flags(s, os, at) == (log + Flags(s, before, at)) + [f];
    } else {
      assert log + Flags(s, os, at) == log;
    }
  }

  lemma StreakBegins(s: Subject, t: Tick, log: seq<bool>)
    requires Trailing(log, s.streak)
    ensures Trailing(log, Begun(s, t).streak)
  {
  }

  lemma TickedStreak(s: Subject, t: Tick)
    ensures t.os != [] ==> Ticked(s, t).streak == ObservedAll(Begun(s, t), t.os, t.at).streak
    ensures t.os == [] ==> Ticked(s, t).streak <= Begun(s, t).streak
  {
    hide Begun, ObservedAll;
  }

  /** The streak never counts more than the latest anomalous observations. */
  lemma {:induction false} StreakIsTrailing(h: seq<Tick>)
    ensures Trailing(Verdicts(h), Run(h).streak)
  {
    hide Ticked, Begun, ObservedAll, Flags;
    if h == [] {
    } else {
      var n := |h| - 1;
      var s := Run(h[..n]);
      StreakIsTrailing(h[..n]);
      StreakBegins(s, h[n], Verdicts(h[..n]));
      StreakGrows(Begun(s, h[n]), h[n].os, h[n].at, Verdicts(h[..n]));
      TickedStreak(s, h[n]);
      if h[n].os == [] { NoFlags(Begun(s, h[n]), h[n].at); }
    }
  }

  lemma NoFlags(s: Subject, at: nat)
    ensures Flags(s, [], at) == [] && ObservedAll(s, [], at) == s
  {
  }

  predicate Is(s: Subject, state: Condition) { s.issue.Some? && s.issue.value.state == state }

  /** The verdicts up to the first q observations of the last tick. */
  function VerdictsUpTo(h: seq<Tick>, q: nat): seq<bool>
    requires h != [] && q <= |h[|h| - 1].os|
  {
    var n := |h| - 1;
    Verdicts(h[..n]) + Flags(Begun(Run(h[..n]), h[n]), h[n].os[..q], h[n].at)
  }

  lemma ObservedOpens(s: Subject, o: Obs, at: nat)
    requires Is(Observed(s, o, at), Open) && !Is(s, Open)
    ensures Observed(s, o, at).streak >= SUSTAINED
  {
  }

  /** An observation opens an issue only as the third of three anomalous ones. */
  lemma OpensAfterThree(h: seq<Tick>, q: nat)
    requires h != [] && q < |h[|h| - 1].os|
    requires !Is(Before(h, |h| - 1, q), Open) && Is(Before(h, |h| - 1, q + 1), Open)
    ensures Trailing(VerdictsUpTo(h, q + 1), SUSTAINED)
  {
    hide Observed, Begun, Run, Flags, Verdicts;
    var n := |h| - 1;
    var s := Run(h[..n]);
    BeforeNext(h, n, q);
    ObservedOpens(Before(h, n, q), h[n].os[q], h[n].at);
    StreakIsTrailing(h[..n]);
    StreakBegins(s, h[n], Verdicts(h[..n]));
    StreakGrows(Begun(s, h[n]), h[n].os[..q + 1], h[n].at, Verdicts(h[..n]));
  }

  lemma BegunIs(h: seq<Tick>, n: nat, state: Condition)
    requires n < |h|
    ensures Is(Before(h, n, 0), state) ==> Is(Run(h[..n]), state)
  {
    hide Run;
    assert h[n].os[..0] == [];
  }

  /** If a run's last tick turns an issue to a state, one observation of it does. */
  lemma {:induction false} TurnedBy(h: seq<Tick>, q: nat, state: Condition) returns (x: nat)
    requires h != [] && q <= |h[|h| - 1].os| && !state.Unavailable?
    requires !Is(Run(h[..|h| - 1]), state) && Is(Before(h, |h| - 1, q), state)
    ensures x < q && !Is(Before(h, |h| - 1, x), state) && Is(Before(h, |h| - 1, x + 1), state)
    decreases q
  {
    hide Observed, Run;
    BegunIs(h, |h| - 1, state);
    if Is(Before(h, |h| - 1, q - 1), state) {
      x := TurnedBy(h, q - 1, state);
    } else {
      x := q - 1;
    }
  }

  lemma UnobservedState(s: Subject, t: Tick)
    requires t.os == []
    ensures !Is(Ticked(s, t), Open) && !Is(Ticked(s, t), Resolved)
  {
    hide Begun;
  }

  lemma TurnedInTick(h: seq<Tick>, state: Condition) returns (x: nat)
    requires h != [] && !state.Unavailable? && !Is(Run(h[..|h| - 1]), state) && Is(Run(h), state)
    ensures x < |h[|h| - 1].os| && !Is(Before(h, |h| - 1, x), state) && Is(Before(h, |h| - 1, x + 1), state)
  {
    hide Ticked, Observed;
    var n := |h| - 1;
    if h[n].os == [] {
      UnobservedState(Run(h[..n]), h[n]);
      assert false;
    } else {
      assert h[..n + 1] == h;
      RunBefore(h, n);
      x := TurnedBy(h, |h[n].os|, state);
    }
  }

  /** Safety: an update opens an issue only if the key's three latest observations were all anomalous. */
  lemma OpenIsSustained(h: seq<Tick>) returns (q: nat)
    requires h != [] && !Is(Run(h[..|h| - 1]), Open) && Is(Run(h), Open)
    ensures q < |h[|h| - 1].os| && Trailing(VerdictsUpTo(h, q + 1), SUSTAINED)
  {
    hide Run, Trailing, VerdictsUpTo, Before;
    q := TurnedInTick(h, Open);
    OpensAfterThree(h, q);
  }

  // ---- Resolving: a minute without an anomaly ----

  /** The observations of tick j that come before position (n, q). */
  function Width(h: seq<Tick>, n: nat, q: nat, j: nat): nat
    requires j <= n < |h| && q <= |h[n].os|
  {
    if j == n then q else |h[j].os|
  }

  ghost predicate CalmTick(h: seq<Tick>, n: nat, q: nat, j: nat, from: nat)
    requires j <= n < |h| && q <= |h[n].os|
  {
    forall x :: from <= x < Width(h, n, q, j) ==> !Flag(h, j, x)
  }

  /** From observation r of tick i up to position (n, q), the subject was observed in every tick and never anomalous. */
  ghost predicate Calm(h: seq<Tick>, n: nat, q: nat, i: nat, r: nat)
    requires n < |h| && q <= |h[n].os|
  {
    && i <= n && r < Width(h, n, q, i) && CalmTick(h, n, q, i, r)
    && forall j :: i < j <= n ==> CalmTick(h, n, q, j, 0) && (j < n ==> h[j].os != [])
  }

  lemma CalmWider(h: seq<Tick>, n: nat, q: nat, i: nat, r: nat)
    requires n < |h| && q < |h[n].os| && Calm(h, n, q, i, r) && !Flag(h, n, q)
    ensures Calm(h, n, q + 1, i, r)
  {
    hide Flag;
    forall j | i < j <= n ensures CalmTick(h, n, q + 1, j, 0) && (j < n ==> h[j].os != []) {
      assert CalmTick(h, n, q, j, 0);
    }
  }

  lemma CalmNextTick(h: seq<Tick>, n: nat, i: nat, r: nat)
    requires n + 1 < |h| && h[n].os != [] && Calm(h, n, |h[n].os|, i, r)
    ensures Calm(h, n + 1, 0, i, r)
  {
    hide Flag;
    forall j | i < j <= n + 1 ensures CalmTick(h, n + 1, 0, j, 0) && (j < n + 1 ==> h[j].os != []) {
      if j <= n { assert CalmTick(h, n, |h[n].os|, j, 0); }
    }
  }

  /** How one observation moves the clear time of a subject with an issue. */
  lemma ObservedClear(s: Subject, o: Obs, at: nat)
    ensures var r := Observed(s, o, at); var f := Anomalous(BaseOf(s).(last := at), o, at);
            && (f ==> r.clear.None?)
            && (!f ==>
                r.clear == Some(if s.clear.Some? then s.clear.value else at) && (r.issue.Some? <==> s.issue.Some?))
  {
    hide Anomalous, Add;
  }

  /** Between ticks: a subject with an issue keeps its clear time only if it was observed. */
  lemma TickedClear(s: Subject, t: Tick, next: Tick)
    requires t.os == []
    ensures var r := Begun(Ticked(s, t), next); r.issue.Some? ==> r.clear.None?
  {
  }

  /** The clear time of a subject with an issue starts a calm stretch. */
  lemma {:induction false} ClearIsCalm(h: seq<Tick>, n: nat, q: nat) returns (i: nat, r: nat)
    requires n < |h| && q <= |h[n].os|
    ensures Before(h, n, q).issue.Some? && Before(h, n, q).clear.Some? ==>
              Calm(h, n, q, i, r) && h[i].at == Before(h, n, q).clear.value
    decreases n, q
  {
    i, r := 0, 0;
    hide Calm, Observed, Anomalous, Run, Begun, Ticked;
    if q > 0 {
      i, r := ClearIsCalm(h, n, q - 1);
      BeforeNext(h, n, q - 1);
      i, r := ClearObserved(h, n, q - 1, i, r);
    } else if n > 0 {
      if h[n - 1].os == [] {
        RunNext(h, n - 1);
        TickedClear(Run(h[..n - 1]), h[n - 1], h[n]);
        StartOf(h, n);
      } else {
        i, r := ClearIsCalm(h, n - 1, |h[n - 1].os|);
        RunBefore(h, n - 1);
        StartOf(h, n);
        BegunClear(Run(h[..n]), h[n]);
        if Before(h, n, q).issue.Some? && Before(h, n, q).clear.Some? { CalmNextTick(h, n - 1, i, r); }
      }
    } else {
      StartOf(h, n);
      BlankClear(h, h[0]);
    }
  }

  lemma BlankClear(h: seq<Tick>, t: Tick)
    ensures Begun(Run(h[..0]), t).clear.None?
  {
    assert h[..0] == [];
  }

  lemma StartOf(h: seq<Tick>, n: nat)
    requires n < |h|
    ensures Before(h, n, 0) == Begun(Run(h[..n]), h[n])
  {
    hide Run, Begun;
    assert h[n].os[..0] == [];
  }

  lemma BegunClear(s: Subject, t: Tick)
    ensures Begun(s, t).issue.Some? ==> Begun(s, t).issue == s.issue && Begun(s, t).clear == s.clear
  {
  }

  lemma ClearObserved(h: seq<Tick>, n: nat, q: nat, i: nat, r: nat) returns (x: nat, y: nat)
    requires n < |h| && q < |h[n].os|
    requires Before(h, n, q + 1) == Observed(Before(h, n, q), h[n].os[q], h[n].at)
    requires Before(h, n, q).issue.Some? && Before(h, n, q).clear.Some? ==>
               Calm(h, n, q, i, r) && h[i].at == Before(h, n, q).clear.value
    ensures Before(h, n, q + 1).issue.Some? && Before(h, n, q + 1).clear.Some? ==>
              Calm(h, n, q + 1, x, y) && h[x].at == Before(h, n, q + 1).clear.value
  {
    hide Observed, Before, Anomalous;
    ObservedClear(Before(h, n, q), h[n].os[q], h[n].at);
    x, y := n, q;
    if !Flag(h, n, q) && Before(h, n, q).issue.Some? && Before(h, n, q).clear.Some? {
      CalmWider(h, n, q, i, r);
      x, y := i, r;
    }
  }

  lemma ObservedResolves(s: Subject, o: Obs, at: nat)
    requires Is(Observed(s, o, at), Resolved) && !Is(s, Resolved)
    ensures var r := Observed(s, o, at); r.issue.Some? && r.clear.Some? && SaturatingSub(at, r.clear.value) >= CLEAR_MS
  {
    hide Anomalous, Add;
  }

  /** Safety: an update resolves an issue only after a minute of updates that observed the key, never anomalous. */
  lemma ResolvedIsCalm(h: seq<Tick>) returns (q: nat, i: nat, r: nat)
    requires h != [] && !Is(Run(h[..|h| - 1]), Resolved) && Is(Run(h), Resolved)
    ensures q < |h[|h| - 1].os| && i < |h| - 1 && Calm(h, |h| - 1, q + 1, i, r)
    ensures h[|h| - 1].at - h[i].at >= CLEAR_MS
  {
    hide Run, Observed, Before, Calm;
    var n := |h| - 1;
    q := TurnedInTick(h, Resolved);
    BeforeNext(h, n, q);
    ObservedResolves(Before(h, n, q), h[n].os[q], h[n].at);
    i, r := ClearIsCalm(h, n, q + 1);
    CalmBounds(h, n, q + 1, i, r);
  }

  lemma CalmBounds(h: seq<Tick>, n: nat, q: nat, i: nat, r: nat)
    requires n < |h| && q <= |h[n].os| && Calm(h, n, q, i, r)
    ensures i <= n
  {
  }

  // ---- Forgetting ----

  /** An absence is dated by an update since when the key was never observed. */
  lemma {:induction false} AbsentSince(h: seq<Tick>) returns (i: nat)
    ensures Run(h).absent.Some? ==>
              i < |h| && h[i].at == Run(h).absent.value && forall j :: i <= j < |h| ==> h[j].os == []
  {
    i := 0;
    hide Begun, ObservedAll;
    if h == [] {
    } else {
      var n := |h| - 1;
      i := AbsentSince(h[..n]);
      AbsentTick(Run(h[..n]), h[n]);
      if Run(h[..n]).absent.None? { i := n; }
    }
  }

  lemma BegunAbsent(s: Subject, t: Tick)
    ensures Begun(s, t).absent == s.absent
  {
  }

  lemma AbsentTick(s: Subject, t: Tick)
    ensures var r := Ticked(s, t);
            && (t.os != [] ==> r.absent.None?)
            && (r.absent.Some? ==> r.absent == Some(if s.absent.Some? then s.absent.value else t.at))
            && (t.os == [] && (r.base.Some? || r.issue.Some?) ==>
                r.absent.Some? && SaturatingSub(t.at, r.absent.value) < FORGET_MS)
  {
    hide Begun, ObservedAll;
    BegunAbsent(s, t);
  }

  /** A key with a baseline or an issue was observed in the last update or has been absent for under ten minutes. */
  lemma KnownIsRecent(h: seq<Tick>) returns (i: nat)
    requires h != [] && (Run(h).base.Some? || Run(h).issue.Some?)
    ensures var n := |h| - 1;
            || h[n].os != []
            || (i < |h| && SaturatingSub(h[n].at, h[i].at) < FORGET_MS && forall j :: i <= j < |h| ==> h[j].os == [])
  {
    hide Ticked;
    i := AbsentSince(h);
    AbsentTick(Run(h[..|h| - 1]), h[|h| - 1]);
  }

  // ---- Exactly when a gone key is forgotten ----

  /** Ticks that all miss the key. */
  ghost predicate AllMiss(ms: seq<Tick>) { forall i :: 0 <= i < |ms| ==> ms[i].os == [] }

  ghost predicate Rebooted(ms: seq<Tick>) { exists i :: 0 <= i < |ms| && ms[i].reboot }

  lemma RebootedSnoc(ms: seq<Tick>)
    requires ms != []
    ensures Rebooted(ms) <==> Rebooted(ms[..|ms| - 1]) || ms[|ms| - 1].reboot
  {
    if Rebooted(ms[..|ms| - 1]) {
      var i :| 0 <= i < |ms| - 1 && ms[..|ms| - 1][i].reboot;
      assert ms[i].reboot;
    }
    if i :| 0 <= i < |ms| && ms[i].reboot && i < |ms| - 1 { assert ms[..|ms| - 1][i].reboot; }
  }

  /** What an observed key leaves: a baseline, and a streak or a clear time. */
  ghost predicate Marked(s: Subject) { s.base.Some? && s.absent.None? && (s.streak > 0 || s.clear.Some?) }

  lemma ObservedMarked(g: seq<Tick>)
    requires g != [] && g[|g| - 1].os != []
    ensures Marked(Run(g))
  {
    hide Observed, Begun, Run, Marked, Before;
    var n := |g| - 1;
    var q := |g[n].os| - 1;
    assert g[..n + 1] == g;
    RunBefore(g, n);
    BeforeNext(g, n, q);
    OneMarks(Before(g, n, q), g[n].os[q], g[n].at);
  }

  lemma OneMarks(s: Subject, o: Obs, at: nat)
    ensures Marked(Observed(s, o, at).(absent := None))
  {
    hide Anomalous, Add;
  }

  /** A streak without baseline, issue or dated absence outlives every update of the same boot that misses the key. */
  lemma StaleStreakStays(s: Subject, t: Tick)
    requires s.base.None? && s.issue.None? && s.absent.None? && t.os == []
    ensures Ticked(s, t) == if t.reboot then Blank() else s
  {
  }

  /** The first update to miss a key dates its absence, unless the topology changed under a key without an issue. */
  ghost predicate Datable(s: Subject, t: Tick) { !t.reboot && (!t.rescope || s.issue.Some?) }

  lemma FirstMiss(s: Subject, t: Tick)
    requires Marked(s) && t.os == []
    ensures t.reboot ==> Ticked(s, t) == Blank()
    ensures Datable(s, t) ==> Ticked(s, t).absent == Some(t.at)
    ensures !t.reboot && !Datable(s, t) ==> Ticked(s, t) == Subject(None, None, s.streak, s.clear, None)
  {
  }

  lemma LaterMiss(s: Subject, t: Tick, since: nat)
    requires t.os == [] && (s == Blank() || s.absent == Some(since))
    ensures Ticked(s, t) == Blank() || Ticked(s, t).absent == Some(since)
    ensures SaturatingSub(t.at, since) >= FORGET_MS ==> Ticked(s, t) == Blank()
  {
  }

  /** While it is missed, a key is blank, dated by the first miss, or kept as the change of topology left it. */
  lemma {:induction false} Missing(g: seq<Tick>, ms: seq<Tick>)
    requires Marked(Run(g)) && ms != [] && AllMiss(ms)
    ensures var s, r := Run(g), Run(g + ms);
            if Datable(s, ms[0]) then
              && (r == Blank() || r.absent == Some(ms[0].at))
              && (|ms| > 1 && SaturatingSub(ms[|ms| - 1].at, ms[0].at) >= FORGET_MS ==> r == Blank())
            else r == if Rebooted(ms) then Blank() else Subject(None, None, s.streak, s.clear, None)
    decreases |ms|
  {
    hide Ticked, Marked, Rebooted;
    var n := |ms| - 1;
    var t := ms[n];
    assert (g + ms)[..|g| + n] == g + ms[..n] && (g + ms)[|g| + n] == t;
    RebootedSnoc(ms);
    if n == 0 {
      assert g + ms[..0] == g;
      NoReboot();
      FirstMiss(Run(g), t);
    } else {
      Missing(g, ms[..n]);
      if Datable(Run(g), ms[0]) {
        LaterMiss(Run(g + ms[..n]), t, ms[0].at);
      } else {
        StaleStreakStays(Run(g + ms[..n]), t);
      }
    }
  }

  lemma NoReboot()
    ensures !Rebooted([])
  {
  }

  /**
    A key observed and then missed for ten minutes is forgotten wholly if and only if the topology was the same at the
    first miss, or the key had an issue, or the host rebooted meanwhile. Else its streak or its clear time stays.
   */
  lemma ForgottenIff(g: seq<Tick>, ms: seq<Tick>)
    requires g != [] && g[|g| - 1].os != [] && ms != [] && AllMiss(ms)
    requires ms[|ms| - 1].at - ms[0].at >= FORGET_MS
    ensures Run(g + ms) == Blank() <==> !ms[0].rescope || Run(g).issue.Some? || Rebooted(ms)
    ensures Run(g + ms) != Blank() ==> Run(g + ms) == Subject(None, None, Run(g).streak, Run(g).clear, None)
  {
    hide Run;
    ObservedMarked(g);
    Missing(g, ms);
    FirstReboot(ms);
  }

  lemma FirstReboot(ms: seq<Tick>)
    requires ms != []
    ensures ms[0].reboot ==> Rebooted(ms)
  {
  }

  /** Both marks can be left behind: one observation in a new boot, then a change of topology with the key gone. */
  lemma StaleStreakArises(at: nat, o: Obs, later: nat)
    ensures Run([Tick(at, true, true, [o]), Tick(later, false, true, [])]) ==
            if o.value > o.limit then Subject(None, None, 1, None, None) else Subject(None, None, 0, Some(at), None)
  {
    hide Run, ObservedAll;
    var t, u := Tick(at, true, true, [o]), Tick(later, false, true, []);
    RunNext([t, u], 0);
    RunNext([t, u], 1);
    assert [t, u][..2] == [t, u] && [t, u][..0] == [];
    RunNone();
    ObservedOne(Blank(), o, at);
    assert !Ready(Unlearned().(last := at), at);
  }

  lemma RunNone()
    ensures Run([]) == Blank()
  {
  }

  lemma ObservedOne(s: Subject, o: Obs, at: nat)
    ensures ObservedAll(s, [o], at) == Observed(s, o, at)
  {
    hide Observed;
    assert [o][..0] == [];
  }
}
