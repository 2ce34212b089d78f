/** The diagnosis engine: its maps over all keys, updated in place by each snapshot. */
module DiagnosisEngine {
  import opened Wrappers
  import opened Numbers
  import opened Diagnosis
  import opened DiagnosisLaws

  type Key = string

  /** What one snapshot tells the engine: its identity, its topology and the observed values in order. */
  datatype Update = Update(at: nat, boot: string, scope: string, observed: seq<(Key, Obs)>)

  /** The observations of one key. */
  function OsOf(observed: seq<(Key, Obs)>, k: Key): seq<Obs> {
    if observed == [] then []
    else
      var last := observed[|observed| - 1];
      OsOf(observed[..|observed| - 1], k) + if last.0 == k then [last.1] else []
  }

  lemma {:induction false} OsPresent(observed: seq<(Key, Obs)>, k: Key)
    ensures OsOf(observed, k) != [] <==> exists i :: 0 <= i < |observed| && observed[i].0 == k
  {
    if observed == [] {
    } else {
      var n := |observed| - 1;
      OsPresent(observed[..n], k);
      if OsOf(observed[..n], k) != [] {
        var i :| 0 <= i < n && observed[..n][i].0 == k;
        assert observed[i].0 == k;
      }
      if i :| 0 <= i < |observed| && observed[i].0 == k {
        if i < n { assert observed[..n][i].0 == k; }
      }
    }
  }

  function LastBoot(h: seq<Update>): string { if h == [] then "" else h[|h| - 1].boot }

  function LastScope(h: seq<Update>): string { if h == [] then "" else h[|h| - 1].scope }

  /** An update as one key sees it, after the given identity and topology. */
  function TickFor(u: Update, k: Key, boot: string, scope: string): Tick {
    Tick(u.at, boot != u.boot, scope != u.scope, OsOf(u.observed, k))
  }

  /** A run of updates as one key sees it. */
  function Ticks(h: seq<Update>, k: Key): (r: seq<Tick>)
    ensures |r| == |h|
  {
    if h == [] then []
    else
      var before, u := h[..|h| - 1], h[|h| - 1];
      Ticks(before, k) + [TickFor(u, k, LastBoot(before), LastScope(before))]
  }

  lemma {:induction false} TickAt(h: seq<Update>, k: Key, j: nat)
    requires j < |h|
    ensures Ticks(h, k)[j] == TickFor(h[j], k, LastBoot(h[..j]), LastScope(h[..j]))
  {
    hide TickFor;
    if j < |h| - 1 {
      TickAt(h[..|h| - 1], k, j);
      assert h[..|h| - 1][..j] == h[..j];
    }
  }

  lemma RunTicks(h: seq<Update>, u: Update, k: Key)
    ensures Run(Ticks(h + [u], k)) ==
            Ticked(Run(Ticks(h, k)), TickFor(u, k, LastBoot(h), LastScope(h)))
  {
    hide Ticked, TickFor;
    assert (h + [u])[..|h|] == h;
    var t := TickFor(u, k, LastBoot(h), LastScope(h));
    assert (Ticks(h, k) + [t])[..|h|] == Ticks(h, k);
  }

  function Get<V>(m: map<Key, V>, k: Key): Option<V> { if k in m then Some(m[k]) else None }

  /** What a key sees of two runs in a row. */
  lemma TicksJoined(g: seq<Update>, ms: seq<Update>, k: Key) returns (after: seq<Tick>)
    ensures Ticks(g + ms, k) == Ticks(g, k) + after && |after| == |ms|
    ensures forall i: nat :: i < |ms| ==> after[i] == TickFor(ms[i], k, LastBoot(g + ms[..i]), LastScope(g + ms[..i]))
  {
    hide TickFor, Ticks;
    forall j: nat | j < |g| ensures Ticks(g + ms, k)[j] == Ticks(g, k)[j] {
      TickAt(g + ms, k, j);
      TickAt(g, k, j);
      assert (g + ms)[..j] == g[..j];
    }
    after := Ticks(g + ms, k)[|g|..];
    forall i: nat | i < |ms| ensures after[i] == TickFor(ms[i], k, LastBoot(g + ms[..i]), LastScope(g + ms[..i])) {
      TickAt(g + ms, k, |g| + i);
      assert (g + ms)[..|g| + i] == g + ms[..i];
    }
  }

  /** Another identity of the host was reported than by the update before. */
  ghost predicate BootChanges(g: seq<Update>, ms: seq<Update>) {
    exists i :: 0 <= i < |ms| && LastBoot(g + ms[..i]) != ms[i].boot
  }

  /**
    A key observed by the last update of one run and by none of the next, ten minutes later: the engine has forgotten
    it wholly if and only if the topology was still the same at its first miss, or it had an issue, or the boot changed.
   */
  lemma GoneIsForgottenIff(g: seq<Update>, ms: seq<Update>, k: Key)
    requires g != [] && OsOf(g[|g| - 1].observed, k) != [] && ms != []
    requires forall u :: u in ms ==> OsOf(u.observed, k) == []
    requires ms[|ms| - 1].at - ms[0].at >= FORGET_MS
    ensures Run(Ticks(g + ms, k)) == Blank() <==>
              ms[0].scope == LastScope(g) || Run(Ticks(g, k)).issue.Some? || BootChanges(g, ms)
  {
    hide Run, OsOf, Ticks, AllMiss, BootChanges, Rebooted;
    var after := TicksJoined(g, ms, k);
    TickAt(g, k, |g| - 1);
    RebootsAgree(g, ms, k, after);
    MissesAgree(g, ms, k, after);
    assert g + ms[..0] == g;
    ForgottenIff(Ticks(g, k), after);
  }

  lemma MissesAgree(g: seq<Update>, ms: seq<Update>, k: Key, after: seq<Tick>)
    requires |after| == |ms| && forall u :: u in ms ==> OsOf(u.observed, k) == []
    requires forall i: nat :: i < |ms| ==> after[i] == TickFor(ms[i], k, LastBoot(g + ms[..i]), LastScope(g + ms[..i]))
    ensures AllMiss(after)
    ensures forall i: nat :: i < |ms| ==> after[i].at == ms[i].at
  {
    hide OsOf, LastBoot, LastScope;
  }

  lemma RebootsAgree(g: seq<Update>, ms: seq<Update>, k: Key, after: seq<Tick>)
    requires |after| == |ms|
    requires forall i: nat :: i < |ms| ==> after[i] == TickFor(ms[i], k, LastBoot(g + ms[..i]), LastScope(g + ms[..i]))
    ensures BootChanges(g, ms) <==> Rebooted(after)
  {
    if BootChanges(g, ms) {
      var i :| 0 <= i < |ms| && LastBoot(g + ms[..i]) != ms[i].boot;
      assert after[i].reboot;
    }
    if Rebooted(after) {
      var i :| 0 <= i < |after| && after[i].reboot;
      assert LastBoot(g + ms[..i]) != ms[i].boot;
    }
  }

  class Engine {
    var baselines: map<Key, Baseline>
    var active: map<Key, Issue>
    var streak: map<Key, nat>
    var clear: map<Key, nat>
    var absent: map<Key, nat>
    var boot: string
    var scope: string
    ghost var history: seq<Update>

    ghost function SubjectOf(k: Key): Subject
      reads this
    {
      Subject(Get(baselines, k), Get(active, k), if k in streak then streak[k] else 0, Get(clear, k), Get(absent, k))
    }

    /** Each key is in the state its own observations lead to: keys do not influence each other. */
    ghost predicate Valid()
      reads this
    {
      && boot == LastBoot(history) && scope == LastScope(history)
      && forall k: Key :: SubjectOf(k) == Run(Ticks(history, k))
    }

    constructor ()
      ensures Valid() && history == []
    {
      baselines, active, streak, clear, absent := map[], map[], map[], map[], map[];
      boot, scope, history := "", "", [];
    }

    method Begin(u: Update)
      modifies `baselines, `active, `streak, `clear, `boot, `scope
      ensures boot == u.boot && scope == u.scope
      ensures forall k: Key :: SubjectOf(k) == Begun(old(SubjectOf(k)), TickFor(u, k, old(boot), old(scope)))
    {
      if boot != u.boot {
        baselines := map[];
        active := map[];
        streak := map[];
        clear := map[];
        boot := u.boot;
      }
      if scope != u.scope {
        baselines := map[];
        scope := u.scope;
      }
    }

    /** An anomalous observation lengthens the streak, and opens the issue when it is long enough. */
    method Alarm(key: Key, o: Obs, at: nat)
      modifies `active, `streak, `clear
      ensures SubjectOf(key) == Alarmed(old(SubjectOf(key)), o, at)
      ensures forall k: Key :: k != key ==> SubjectOf(k) == old(SubjectOf(k))
    {
      var n := (if key in streak then streak[key] else 0) + 1;
      streak := streak[key := n];
      clear := clear - {key};
      if n >= SUSTAINED {
        var issue := if key in active then active[key] else Issue(Open, SaturatingSub(at, OPEN_BACK_MS), o);
        active := active[key := issue.(state := Open, evidence := o)];
      }
    }

    /** Any other observation ends the streak, dates the clear time, and resolves the issue after long enough. */
    method Clear(key: Key, at: nat)
      modifies `active, `streak, `clear
      ensures SubjectOf(key) == Cleared(old(SubjectOf(key)), at)
      ensures forall k: Key :: k != key ==> SubjectOf(k) == old(SubjectOf(k))
    {
      streak := streak - {key};
      var since := if key in clear then clear[key] else at;
      clear := clear[key := since];
      if SaturatingSub(at, since) >= CLEAR_MS && key in active {
        active := active[key := active[key].(state := Resolved)];
      }
    }

    method Learn(key: Key, b: Baseline)
      modifies `baselines
      ensures SubjectOf(key) == old(SubjectOf(key)).(base := Some(b))
      ensures forall k: Key :: k != key ==> SubjectOf(k) == old(SubjectOf(k))
    {
      baselines := baselines[key := b];
    }

    /** One observation; the subjects of other keys stay as they are. */
    method Observe(key: Key, o: Obs, at: nat)
      modifies `baselines, `active, `streak, `clear
      ensures SubjectOf(key) == Observed(old(SubjectOf(key)), o, at)
      ensures forall k: Key :: k != key ==> SubjectOf(k) == old(SubjectOf(k))
    {
      hide Add, Anomalous, Alarmed, Cleared;
      ghost var s := SubjectOf(key);
      var base := (if key in baselines then baselines[key] else Unlearned()).(last := at);
      assert base == BaseOf(s).(last := at);
      Learn(key, base);
      if Anomalous(base, o, at) {
        Alarm(key, o, at);
      } else {
        Learn(key, Add(base, o.value, at));
        Clear(key, at);
      }
      ObservedParts(s, o, at);
    }

    method ObserveAll(u: Update) returns (present: set<Key>)
      modifies `baselines, `active, `streak, `clear
      ensures forall k: Key :: SubjectOf(k) == ObservedAll(old(SubjectOf(k)), OsOf(u.observed, k), u.at)
      ensures forall k: Key :: k in present <==> OsOf(u.observed, k) != []
    {
      hide Observed;
      present := {};
      var i := 0;
      while i < |u.observed|
        invariant i <= |u.observed|
        invariant forall k: Key :: SubjectOf(k) == ObservedAll(old(SubjectOf(k)), OsOf(u.observed[..i], k), u.at)
        invariant forall k: Key :: k in present <==> OsOf(u.observed[..i], k) != []
      {
        var (key, o) := u.observed[i];
        assert u.observed[..i + 1][..i] == u.observed[..i];
        forall k: Key
          ensures OsOf(u.observed[..i + 1], k) == OsOf(u.observed[..i], k) + if k == key then [o] else []
        {
        }
        present := present + {key};
        ghost var before := u.observed[..i];
        label One:
        Observe(key, o, u.at);
        forall k: Key
          ensures SubjectOf(k) == ObservedAll(old(SubjectOf(k)), OsOf(u.observed[..i + 1], k), u.at)
        {
          ObservedSnoc(old(SubjectOf(k)), OsOf(before, k), o, u.at);
          assert OsOf(before, k) + [] == OsOf(before, k);
        }
        i := i + 1;
      }
      assert u.observed[..i] == u.observed;
    }

    /** Issues of keys not observed lose their streak and clear time, and say so. */
    method MissActive(present: set<Key>)
      modifies `active, `streak, `clear
      ensures forall k: Key :: SubjectOf(k) == if k in present then old(SubjectOf(k)) else Silent(old(SubjectOf(k)))
    {
      var left := active.Keys - present;
      while left != {}
        invariant left <= old(active.Keys) - present
        invariant forall k: Key ::
          SubjectOf(k) ==
          if k in old(active.Keys) - present - left then Silent(old(SubjectOf(k))) else old(SubjectOf(k))
        decreases left
      {
        var key :| key in left;
        assert SubjectOf(key) == old(SubjectOf(key));
        clear := clear - {key};
        streak := streak - {key};
        active := active[key := active[key].(state := Unavailable)];
        left := left - {key};
      }
    }

    /** Absences end with an observation, and begin with something left to forget. */
    method Date(present: set<Key>, at: nat)
      modifies `absent
      ensures forall k: Key ::
        SubjectOf(k) == if k in present then old(SubjectOf(k)).(absent := None) else Dated(old(SubjectOf(k)), at)
    {
      absent := map k | k in absent && k !in present :: absent[k];
      absent := map k | k in absent.Keys + ((active.Keys + baselines.Keys) - present) ::
        if k in absent then absent[k] else at;
    }

    /** Keys gone for long enough are forgotten. */
    method Forget(at: nat)
      modifies `baselines, `active, `streak, `clear, `absent
      ensures forall k: Key :: SubjectOf(k) == Forgotten(old(SubjectOf(k)), at)
    {
      var gone := set k | k in absent && SaturatingSub(at, absent[k]) >= FORGET_MS;
      baselines := baselines - gone;
      active := active - gone;
      streak := streak - gone;
      clear := clear - gone;
      absent := absent - gone;
    }

    method Update(u: Update)
      requires Valid()
      modifies this
      ensures Valid() && history == old(history) + [u]
    {
      hide Begun, ObservedAll, Run, Ticks, Silent, Dated, Forgotten, Ticked;
      Begin(u);
      var present := ObserveAll(u);
      MissActive(present);
      Date(present, u.at);
      Forget(u.at);
      forall k: Key
        ensures SubjectOf(k) ==
          Ticked(old(SubjectOf(k)), TickFor(u, k, old(boot), old(scope)))
      {
        Present(ObservedAll(Begun(old(SubjectOf(k)), TickFor(u, k, old(boot), old(scope))),
                            OsOf(u.observed, k), u.at), u.at);
        TickedParts(old(SubjectOf(k)), TickFor(u, k, old(boot), old(scope)));
      }
      history := history + [u];
      forall k: Key ensures SubjectOf(k) == Run(Ticks(history, k)) { RunTicks(old(history), u, k); }
    }

    /** The engine reports a key observed above its limit by three updates in a row of one boot. */
    lemma Reported(k: Key)
      requires Valid() && |history| >= 3
      requires var n := |history|; history[n - 3].boot == history[n - 2].boot == history[n - 1].boot
      requires forall j: nat :: |history| - 3 <= j < |history| ==>
                 OsOf(history[j].observed, k) != [] &&
                 forall o :: o in OsOf(history[j].observed, k) ==> o.value > o.limit
      ensures k in active && active[k].state == Open
    {
      hide Run, OsOf, Ticks;
      var n := |history|;
      assert SubjectOf(k) == Run(Ticks(history, k));
      forall j: nat | n - 3 <= j < n ensures Alarming(Ticks(history, k)[j]) { TickAt(history, k, j); }
      TickAt(history, k, n - 2);
      TickAt(history, k, n - 1);
      assert history[..n - 1][n - 2] == history[n - 2] && history[..n - 2][n - 3] == history[n - 3];
      ThreeAlarmsOpen(Ticks(history, k));
    }

    /** After any run of updates the engine remembers only keys observed last, or missing for under ten minutes. */
    lemma Remembered(k: Key) returns (i: nat)
      requires Valid() && history != [] && (k in baselines || k in active)
      ensures var n := |history| - 1;
              || OsOf(history[n].observed, k) != []
              || (i <= n && SaturatingSub(history[n].at, history[i].at) < FORGET_MS
                  && forall j :: i <= j <= n ==> OsOf(history[j].observed, k) == [])
    {
      hide Run, OsOf, Ticks;
      var n := |history| - 1;
      assert SubjectOf(k) == Run(Ticks(history, k));
      i := KnownIsRecent(Ticks(history, k));
      forall j: nat | j <= n
        ensures Ticks(history, k)[j].os == OsOf(history[j].observed, k) && Ticks(history, k)[j].at == history[j].at
      {
        TickAt(history, k, j);
      }
    }
  }

  lemma ObservedParts(s: Subject, o: Obs, at: nat)
    ensures var b := BaseOf(s).(last := at);
            Observed(s, o, at) ==
            if Anomalous(b, o, at) then Alarmed(s.(base := Some(b)), o, at)
            else Cleared(s.(base := Some(Add(b, o.value, at))), at)
  {
    hide Add, Anomalous, Alarmed, Cleared;
  }

  /** A key that is observed is not forgotten. */
  lemma Present(s: Subject, at: nat)
    ensures Forgotten(s.(absent := None), at) == s.(absent := None)
  {
  }

  lemma TickedParts(s: Subject, t: Tick)
    ensures Ticked(s, t) ==
            var r := ObservedAll(Begun(s, t), t.os, t.at);
            if t.os != [] then r.(absent := None) else Forgotten(Dated(Silent(r), t.at), t.at)
  {
    hide Begun, Silent, Dated, Forgotten, Observed;
  }

  lemma ObservedSnoc(s: Subject, os: seq<Obs>, o: Obs, at: nat)
    ensures ObservedAll(s, os + [o], at) == Observed(ObservedAll(s, os, at), o, at)
  {
    hide Observed;
    assert (os + [o])[..|os|] == os;
  }
}
