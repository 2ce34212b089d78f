/**
  What issues say about observations, in both directions: three anomalous ones in a row open an issue, a calm minute
  resolves it, and the learned baseline is the moving average of the calm values.
 */
module DiagnosisLaws {
  import opened Wrappers
  import opened Diagnosis

  // ---- The learned baseline ----

  /** One step of a moving average: the new value counts for a fiftieth. */
  function Blend(m: real, v: real): real { 0.98 * m + 0.02 * v }

  function Squared(v: real): real { v * v }

  /** A mean of squares less the squared mean. */
  function Deviation(q: real, m: real): real { q - m * m }

  /** The moving average of the values. */
  function Mean(vs: seq<(real, nat)>): real {
    if vs == [] then 0.0
    else if |vs| == 1 then vs[0].0
    else Blend(Mean(vs[..|vs| - 1]), vs[|vs| - 1].0)
  }

  /** The moving average of their squares. */
  function MeanSquare(vs: seq<(real, nat)>): real {
    if vs == [] then 0.0
    else if |vs| == 1 then Squared(vs[0].0)
    else Blend(MeanSquare(vs[..|vs| - 1]), Squared(vs[|vs| - 1].0))
  }

  function Variance(vs: seq<(real, nat)>): real { Deviation(MeanSquare(vs), Mean(vs)) }

  lemma SquaredDifference(v: real, m: real)
    ensures (v - m) * (v - m) == v * v - 2.0 * (m * v) + m * m
  {
  }

  lemma SquaredStep(m: real, v: real)
    ensures (0.98 * m + 0.02 * v) * (0.98 * m + 0.02 * v) ==
            0.9604 * (m * m) + 0.0392 * (m * v) + 0.0004 * (v * v)
  {
  }

  /** How a variance takes one more value. */
  function Widened(w: real, m: real, v: real): real { 0.98 * (w + 0.02 * (v - m) * (v - m)) }

  lemma Moment(m: real, q: real, v: real)
    ensures Widened(Deviation(q, m), m, v) == Deviation(Blend(q, Squared(v)), Blend(m, v))
  {
    SquaredDifference(v, m);
    SquaredStep(m, v);
    assert 0.02 * (v - m) * (v - m) == 0.02 * ((v - m) * (v - m));
  }

  lemma AddFirst(b: Baseline, v: real, at: nat)
    requires b == Unlearned()
    ensures var c := Add(b, v, at);
            c.count == 1 && c.since == at && c.mean == v && c.variance == Deviation(Squared(v), v)
  {
  }

  lemma AddNext(b: Baseline, v: real, at: nat)
    requires b.count > 0
    ensures var c := Add(b, v, at);
            && c.count == b.count + 1 && c.since == b.since
            && c.mean == Blend(b.mean, v) && c.variance == Widened(b.variance, b.mean, v)
  {
  }

  /** The mean is the moving average of the values; the variance is that of their squares less the squared mean. */
  lemma {:induction false} LearnMoments(vs: seq<(real, nat)>)
    ensures var b := Learn(vs);
            && b.count == |vs| && b.since == (if vs == [] then 0 else vs[0].1)
            && b.mean == Mean(vs) && b.variance == Variance(vs)
  {
    if vs == [] {
    } else {
      hide Add, Blend, Squared, Deviation, Widened;
      var n := |vs| - 1;
      var v := vs[n].0;
      assert Learn(vs) == Add(Learn(vs[..n]), v, vs[n].1);
      if n == 0 {
        assert vs[..0] == [];
        AddFirst(Learn(vs[..0]), v, vs[0].1);
      } else {
        LearnMoments(vs[..n]);
        AddNext(Learn(vs[..n]), v, vs[n].1);
        Moment(Mean(vs[..n]), MeanSquare(vs[..n]), v);
      }
    }
  }

  // ---- A stretch of updates that observe the key ----

  /** Every tick from a to n observes the key, within one boot. */
  ghost predicate Watched(h: seq<Tick>, a: nat, n: nat) {
    a <= n < |h| && (forall j :: a <= j <= n ==> h[j].os != []) && forall j :: a < j <= n ==> !h[j].reboot
  }

  /** From one observed tick to the next. */
  lemma AcrossTicks(h: seq<Tick>, n: nat)
    requires n + 1 < |h| && h[n].os != []
    ensures Before(h, n + 1, 0) == Begun(Before(h, n, |h[n].os|).(absent := None), h[n + 1])
  {
    hide Run, Begun, Before;
    StartOf(h, n + 1);
    RunBefore(h, n);
  }

  // ---- What is learned in a stretch ----

  /** The calm values of a stretch, up to observation q of tick n. */
  ghost function Lessons(h: seq<Tick>, a: nat, n: nat, q: nat): seq<(real, nat)>
    requires a <= n < |h| && q <= |h[n].os|
    decreases n, q
  {
    if q > 0 then
      Lessons(h, a, n, q - 1) + if Flag(h, n, q - 1) then [] else [(h[n].os[q - 1].value, h[n].at)]
    else if n > a then Lessons(h, a, n - 1, |h[n - 1].os|)
    else []
  }

  /** The stretch starts with nothing learned and one topology holds throughout. */
  ghost predicate Afresh(h: seq<Tick>, a: nat, n: nat) {
    && Watched(h, a, n)
    && (a == 0 || h[a].reboot || h[a].rescope)
    && forall j :: a < j <= n ==> !h[j].rescope
  }

  /** The baseline is what the calm values of the stretch teach, but for when the key was last seen. */
  lemma {:induction false} Taught(h: seq<Tick>, a: nat, n: nat, q: nat)
    requires Afresh(h, a, n) && q <= |h[n].os|
    ensures BaseOf(Before(h, n, q)).(last := 0) == Learn(Lessons(h, a, n, q)).(last := 0)
    decreases n, q
  {
    hide Run, Begun, Observed, Before, Flag, Learn, Anomalous, Add;
    if q > 0 {
      Taught(h, a, n, q - 1);
      BeforeNext(h, n, q - 1);
      FlagIs(h, n, q - 1);
      var vs := Lessons(h, a, n, q - 1);
      var o, at := h[n].os[q - 1], h[n].at;
      BaseObserved(Before(h, n, q - 1), o, at);
      AddLast(BaseOf(Before(h, n, q - 1)).(last := at), Learn(vs), o.value, at);
      LearnSnoc(vs, o.value, at);
      assert vs + [] == vs;
    } else if n > a {
      Taught(h, a, n - 1, |h[n - 1].os|);
      AcrossTicks(h, n - 1);
      BegunBase(Before(h, n - 1, |h[n - 1].os|).(absent := None), h[n]);
    } else {
      StartOf(h, n);
      BegunFresh(h, n);
      LearnNothing();
    }
  }

  lemma LearnNothing()
    ensures Learn([]) == Unlearned()
  {
  }

  lemma BegunBase(s: Subject, t: Tick)
    requires !t.reboot && !t.rescope
    ensures Begun(s, t) == s
  {
  }

  lemma BegunFresh(h: seq<Tick>, n: nat)
    requires n < |h| && (n == 0 || h[n].reboot || h[n].rescope)
    ensures BaseOf(Begun(Run(h[..n]), h[n])) == Unlearned()
  {
    if n == 0 { assert h[..0] == []; }
  }

  lemma FlagIs(h: seq<Tick>, n: nat, q: nat)
    requires n < |h| && q < |h[n].os|
    ensures Flag(h, n, q) == Anomalous(BaseOf(Before(h, n, q)).(last := h[n].at), h[n].os[q], h[n].at)
  {
  }

  lemma BaseObserved(s: Subject, o: Obs, at: nat)
    ensures var b := BaseOf(s).(last := at);
            BaseOf(Observed(s, o, at)) == if Anomalous(b, o, at) then b else Add(b, o.value, at)
  {
    hide Anomalous, Add;
  }

  /** What is learned next does not depend on when the key was last seen. */
  lemma AddLast(b: Baseline, c: Baseline, v: real, at: nat)
    requires b.(last := 0) == c.(last := 0)
    ensures Add(b, v, at).(last := 0) == Add(c, v, at).(last := 0)
  {
  }

  lemma LearnSnoc(vs: seq<(real, nat)>, v: real, at: nat)
    ensures Learn(vs + [(v, at)]) == Add(Learn(vs), v, at)
  {
    hide Add;
    assert (vs + [(v, at)])[..|vs|] == vs;
  }

  /**
    Above its limit, or half above a mean learned from 1800 values over half an hour and more than three deviations
    above it.
   */
  predicate Unusual(o: Obs, at: nat, count: nat, since: nat, mean: real, variance: real) {
    var excess := o.value - mean;
    || o.value > o.limit
    || (count >= 1800 && at >= since + 1800000
        && o.value > 1.5 * mean && excess > 0.0 && excess * excess > 9.0 * variance)
  }

  lemma AnomalousPlain(b: Baseline, o: Obs, at: nat)
    ensures Anomalous(b, o, at) <==> Unusual(o, at, b.count, b.since, b.mean, b.variance)
  {
    assert 1.5 * b.mean == b.mean * 1.5;
  }

  /** An observation is anomalous exactly if it is unusual for the calm values of the stretch. */
  lemma AnomalousIff(h: seq<Tick>, a: nat, n: nat, q: nat)
    requires Afresh(h, a, n) && q < |h[n].os|
    ensures var vs := Lessons(h, a, n, q);
            Flag(h, n, q) <==>
            Unusual(h[n].os[q], h[n].at, |vs|, if vs == [] then 0 else vs[0].1, Mean(vs), Variance(vs))
  {
    hide Unusual, Mean, Variance, Before, Learn, Anomalous, Flag;
    Taught(h, a, n, q);
    FlagIs(h, n, q);
    var vs := Lessons(h, a, n, q);
    hide Lessons;
    LearnMoments(vs);
    AnomalousPlain(BaseOf(Before(h, n, q)).(last := h[n].at), h[n].os[q], h[n].at);
  }

  // ---- Opening ----

  /** The verdicts of a stretch up to observation q of tick n. */
  ghost function Log(h: seq<Tick>, a: nat, n: nat, q: nat): seq<bool>
    requires a <= n < |h| && q <= |h[n].os|
    decreases n, q
  {
    if q > 0 then Log(h, a, n, q - 1) + [Flag(h, n, q - 1)]
    else if n > a then Log(h, a, n - 1, |h[n - 1].os|)
    else []
  }

  lemma StreakObserved(s: Subject, o: Obs, at: nat)
    ensures Anomalous(BaseOf(s).(last := at), o, at) ==> Observed(s, o, at).streak == s.streak + 1
    ensures !Anomalous(BaseOf(s).(last := at), o, at) ==> Observed(s, o, at).streak == 0
  {
    hide Anomalous, Add;
  }

  lemma BegunStreak(s: Subject, t: Tick)
    requires !t.reboot
    ensures Begun(s, t).streak == s.streak
  {
  }

  /** Anomalous observations in a row make a streak at least as long. */
  lemma {:induction false} StreakLongEnough(h: seq<Tick>, a: nat, n: nat, q: nat, k: nat)
    requires Watched(h, a, n) && q <= |h[n].os| && Trailing(Log(h, a, n, q), k)
    ensures Before(h, n, q).streak >= k
    decreases n, q
  {
    hide Run, Begun, Observed, Before, Flag;
    if k == 0 {
    } else if q > 0 {
      var log := Log(h, a, n, q - 1);
      BeforeNext(h, n, q - 1);
      FlagIs(h, n, q - 1);
      StreakObserved(Before(h, n, q - 1), h[n].os[q - 1], h[n].at);
      assert (log + [Flag(h, n, q - 1)])[|log|];
      assert Trailing(log, k - 1) by {
        forall i | |log| - (k - 1) <= i < |log| ensures log[i] { assert (log + [Flag(h, n, q - 1)])[i]; }
      }
      StreakLongEnough(h, a, n, q - 1, k - 1);
    } else if n > a {
      StreakLongEnough(h, a, n - 1, |h[n - 1].os|, k);
      AcrossTicks(h, n - 1);
      BegunStreak(Before(h, n - 1, |h[n - 1].os|).(absent := None), h[n]);
    }
  }

  /** An anomalous observation after at least two in a row opens an issue or reopens the known one. */
  lemma SustainedOpens(s: Subject, o: Obs, at: nat)
    requires s.streak >= 2 && Anomalous(BaseOf(s).(last := at), o, at)
    ensures Observed(s, o, at).issue ==
            Some(Issue(Open, if s.issue.Some? then s.issue.value.since else if at >= 2000 then at - 2000 else 0, o))
  {
    hide Anomalous, Add;
  }

  /**
    Liveness: if the three latest observations of a stretch are anomalous, the key has an open issue that shows the
    last of them; it began two seconds before if there was none, and else when it did.
   */
  lemma SustainedIsOpen(h: seq<Tick>, a: nat)
    requires h != [] && Watched(h, a, |h| - 1)
    requires Trailing(Log(h, a, |h| - 1, |h[|h| - 1].os|), 3)
    ensures var n := |h| - 1; var x := |h[n].os| - 1; var known := Before(h, n, x).issue; var at := h[n].at;
            Run(h).issue ==
            Some(Issue(Open, if known.Some? then known.value.since else if at >= 2000 then at - 2000 else 0,
                       h[n].os[x]))
  {
    hide Begun, Observed, Flag, Before, Run;
    var n := |h| - 1;
    var x := |h[n].os| - 1;
    var log := Log(h, a, n, x);
    assert h[..n + 1] == h;
    assert (log + [Flag(h, n, x)])[|log|];
    assert Trailing(log, 2) by {
      forall i | |log| - 2 <= i < |log| ensures log[i] { assert (log + [Flag(h, n, x)])[i]; }
    }
    StreakLongEnough(h, a, n, x, 2);
    FlagIs(h, n, x);
    SustainedOpens(Before(h, n, x), h[n].os[x], h[n].at);
    BeforeNext(h, n, x);
    RunBefore(h, n);
  }

  /** A tick all of whose observations are above their limits. */
  ghost predicate Alarming(t: Tick) { t.os != [] && forall o :: o in t.os ==> o.value > o.limit }

  lemma {:induction false} AlarmingLog(h: seq<Tick>, a: nat, n: nat, q: nat)
    requires a <= n < |h| && q <= |h[n].os| && forall j :: a <= j <= n ==> Alarming(h[j])
    ensures |Log(h, a, n, q)| >= n - a + (if q > 0 then 1 else 0)
    ensures forall i :: 0 <= i < |Log(h, a, n, q)| ==> Log(h, a, n, q)[i]
    decreases n, q
  {
    hide Before;
    if q > 0 {
      AlarmingLog(h, a, n, q - 1);
      assert h[n].os[q - 1] in h[n].os;
      FlagIs(h, n, q - 1);
    } else if n > a {
      AlarmingLog(h, a, n - 1, |h[n - 1].os|);
    }
  }

  /** Three updates in a row that observe the key above its limit, within one boot, leave an open issue. */
  lemma ThreeAlarmsOpen(h: seq<Tick>)
    requires |h| >= 3 && !h[|h| - 2].reboot && !h[|h| - 1].reboot
    requires forall j :: |h| - 3 <= j < |h| ==> Alarming(h[j])
    ensures Run(h).issue.Some? && Run(h).issue.value.state == Open
    ensures Run(h).issue.value.evidence == h[|h| - 1].os[|h[|h| - 1].os| - 1]
  {
    hide Run, Log, Before;
    var n := |h| - 1;
    AlarmingLog(h, n - 2, n, |h[n].os|);
    SustainedIsOpen(h, n - 2);
  }

  // ---- When an issue began ----

  lemma {:induction false} SinceWithin(s: Subject, os: seq<Obs>, at: nat)
    ensures s.issue.Some? ==> ObservedAll(s, os, at).issue.Some? &&
                              ObservedAll(s, os, at).issue.value.since == s.issue.value.since
    ensures s.issue.None? && ObservedAll(s, os, at).issue.Some? ==>
              ObservedAll(s, os, at).issue.value.since == if at >= 2000 then at - 2000 else 0
  {
    hide Anomalous, Add;
    if os == [] {
    } else {
      SinceWithin(s, os[..|os| - 1], at);
    }
  }

  /**
    An issue keeps the time it began at for as long as it is known; a new one began two seconds before the update that
    opened it.
   */
  lemma BeganOnce(h: seq<Tick>)
    requires h != [] && Run(h).issue.Some?
    ensures var n := |h| - 1; var before := Run(h[..n]).issue;
            Run(h).issue.value.since ==
            if before.Some? && !h[n].reboot then before.value.since
            else if h[n].at >= 2000 then h[n].at - 2000 else 0
  {
    hide ObservedAll, Run;
    var n := |h| - 1;
    assert h[..n + 1] == h;
    RunNext(h, n);
    SinceWithin(Begun(Run(h[..n]), h[n]), h[n].os, h[n].at);
  }

  // ---- Resolving ----

  /** No observation from number x of tick i on is anomalous, up to observation q of tick n. */
  ghost predicate Quiet(h: seq<Tick>, i: nat, x: nat, n: nat, q: nat) {
    && i <= n < |h| && q <= |h[n].os|
    && (forall y :: x <= y < (if i == n then q else |h[i].os|) ==> !Flag(h, i, y))
    && forall j :: i < j <= n ==> forall y :: 0 <= y < (if j == n then q else |h[j].os|) ==> !Flag(h, j, y)
  }

  /** Some tick from i to n is a minute or more after tick i. */
  ghost predicate MinutePassed(h: seq<Tick>, i: nat, n: nat) {
    n < |h| && exists j :: i <= j <= n && h[j].at >= h[i].at + 60000
  }

  lemma ClearedBy(s: Subject, o: Obs, at: nat, since: nat)
    requires s.issue.Some? && !Anomalous(BaseOf(s).(last := at), o, at)
    requires s.clear == Some(since) || (s.clear.None? && since == at)
    ensures var r := Observed(s, o, at);
            && r.clear == Some(since)
            && r.issue == Some(if at >= since + 60000 then s.issue.value.(state := Resolved) else s.issue.value)
  {
    hide Anomalous, Add;
  }

  lemma BegunIssue(s: Subject, t: Tick)
    requires !t.reboot
    ensures Begun(s, t).issue == s.issue && Begun(s, t).clear == s.clear
  {
  }

  /** Where a calm stretch starts: after an anomaly, or with no clear time yet. */
  lemma {:induction false} QuietState(h: seq<Tick>, i: nat, x: nat, n: nat, q: nat)
    requires Watched(h, i, n) && x < |h[i].os| && q <= |h[n].os| && Quiet(h, i, x, n, q) && (i == n ==> x < q)
    requires Before(h, i, x).issue.Some? && Before(h, i, x).clear.None?
    ensures var s, r := Before(h, i, x), Before(h, n, q);
            var passed := if q > 0 then MinutePassed(h, i, n) else n > 0 && MinutePassed(h, i, n - 1);
            && r.clear == Some(h[i].at)
            && r.issue == Some(if passed then s.issue.value.(state := Resolved) else s.issue.value)
    decreases n, q
  {
    hide Run, Begun, Observed, Before, Flag;
    if q > 0 {
      BeforeNext(h, n, q - 1);
      FlagIs(h, n, q - 1);
      assert !Flag(h, n, q - 1);
      if n == i && q - 1 == x {
        ClearedBy(Before(h, n, x), h[n].os[x], h[n].at, h[i].at);
        assert !MinutePassed(h, i, n);
      } else {
        QuietState(h, i, x, n, q - 1);
        ClearedBy(Before(h, n, q - 1), h[n].os[q - 1], h[n].at, h[i].at);
        MinuteNext(h, i, n);
      }
    } else {
      assert Quiet(h, i, x, n - 1, |h[n - 1].os|) by {
        forall j | i < j <= n - 1
          ensures forall y :: 0 <= y < |h[j].os| ==> !Flag(h, j, y)
        {
        }
      }
      QuietState(h, i, x, n - 1, |h[n - 1].os|);
      AcrossTicks(h, n - 1);
      BegunIssue(Before(h, n - 1, |h[n - 1].os|).(absent := None), h[n]);
    }
  }

  lemma MinuteNext(h: seq<Tick>, i: nat, n: nat)
    requires i <= n < |h|
    ensures MinutePassed(h, i, n) <==> (n > i && MinutePassed(h, i, n - 1)) || h[n].at >= h[i].at + 60000
  {
    if MinutePassed(h, i, n) {
      var j :| i <= j <= n && h[j].at >= h[i].at + 60000;
    }
  }

  /** After an anomalous observation there is no clear time. */
  lemma FlagUnclears(h: seq<Tick>, n: nat, q: nat)
    requires n < |h| && q < |h[n].os| && Flag(h, n, q)
    ensures Before(h, n, q + 1).clear.None?
  {
    hide Run, Begun, Observed, Before;
    BeforeNext(h, n, q);
    FlagIs(h, n, q);
    ObservedClear(Before(h, n, q), h[n].os[q], h[n].at);
  }

  /**
    Liveness: after an anomalous observation of a key with an issue, while every later observation is calm and no
    update misses the key, the issue is resolved exactly once some update is a minute after the first calm one; until
    then it stays as it was.
   */
  lemma CalmResolvesIff(h: seq<Tick>, i: nat, x: nat)
    requires h != [] && Watched(h, i, |h| - 1) && 0 < x < |h[i].os| && Flag(h, i, x - 1)
    requires Quiet(h, i, x, |h| - 1, |h[|h| - 1].os|) && Before(h, i, x).issue.Some?
    ensures Run(h).issue ==
            Some(if MinutePassed(h, i, |h| - 1) then Before(h, i, x).issue.value.(state := Resolved)
                 else Before(h, i, x).issue.value)
  {
    hide Run, Before, Flag;
    var n := |h| - 1;
    assert h[..n + 1] == h;
    FlagUnclears(h, i, x - 1);
    QuietState(h, i, x, n, |h[n].os|);
    RunBefore(h, n);
  }

  /** The same when the anomaly was the last observation of one update and the calm starts with the next. */
  lemma CalmUpdatesResolveIff(h: seq<Tick>, i: nat)
    requires h != [] && 0 < i && Watched(h, i - 1, |h| - 1) && Flag(h, i - 1, |h[i - 1].os| - 1)
    requires Quiet(h, i, 0, |h| - 1, |h[|h| - 1].os|) && Run(h[..i]).issue.Some?
    ensures Run(h).issue ==
            Some(if MinutePassed(h, i, |h| - 1) then Run(h[..i]).issue.value.(state := Resolved)
                 else Run(h[..i]).issue.value)
  {
    hide Run, Before, Flag, Begun;
    var n := |h| - 1;
    assert h[..n + 1] == h;
    FlagUnclears(h, i - 1, |h[i - 1].os| - 1);
    RunBefore(h, i - 1);
    AcrossTicks(h, i - 1);
    BegunIssue(Run(h[..i]), h[i]);
    QuietState(h, i, 0, n, |h[n].os|);
    RunBefore(h, n);
  }

  // ---- Missing ----

  /** An issue whose key is missed is unavailable, with its beginning and evidence, until it is forgotten. */
  lemma MissedIsUnavailable(h: seq<Tick>)
    requires h != [] && h[|h| - 1].os == [] && !h[|h| - 1].reboot && Run(h[..|h| - 1]).issue.Some?
    ensures var s, t := Run(h[..|h| - 1]), h[|h| - 1];
            var gone := s.absent.Some? && t.at >= s.absent.value + 600000;
            && Run(h).issue == (if gone then None else Some(s.issue.value.(state := Unavailable)))
            && Run(h).streak == 0 && Run(h).clear.None?
  {
  }
}
