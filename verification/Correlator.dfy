/** The correlator itself: tables updated in place, event by event. */
module Correlators {
  import opened Wrappers
  import opened Correlation
  import opened CorrelationHistory

  /** `LatencyWindow::push`: the queue never outgrows its capacity. */
  method PushInto(window: Window, value: real) returns (w: Window)
    ensures w == Push(window, value)
    ensures |window| <= CAP ==> |w| <= CAP
  {
    w := window;
    if |w| >= CAP {
      w := w[1..];
    }
    w := w + [value];
  }

  method PushAt(windows: map<nat, Window>, k: nat, ns: nat) returns (m: map<nat, Window>)
    ensures m == Pushed(windows, k, ns)
  {
    var w := PushInto(if k in windows then windows[k] else [], Ms(ns));
    m := windows[k := w];
  }

  class Correlator {
    var sched: Sched
    var calls: Calls
    var irqs: Irqs
    var moves: Moves
    var lost: nat
    var paired: nat
    /** Everything told so far, and where it started. */
    ghost var history: seq<Input>
    ghost var first: State

    ghost function Now(): State
      reads this
    {
      State(sched, calls, irqs, moves, lost, paired)
    }

    /** The fields are what the history of inputs makes of a fresh correlator. */
    ghost predicate Valid()
      reads this
    {
      Fresh(first) && Now() == Run(first, history)
    }

    constructor ()
      ensures Valid() && history == [] && Fresh(Now())
    {
      sched := Sched(map[], map[], map[], map[], map[], map[], map[]);
      calls := Calls(map[], map[], map[], map[], map[], map[]);
      irqs := Irqs(map[], map[], map[]);
      moves := Moves(map[], map[], map[], map[]);
      lost, paired, history := 0, 0, [];
      new;
      first := Now();
    }

    // ---- Scheduling ----

    /** A thread number under a new start time forgets the old thread. */
    method Start(p: nat, start: Option<nat>)
      modifies `sched
      ensures sched == Started(old(sched), p, start)
    {
      if start.Some? && start.value > 0 {
        if p in sched.starts && sched.starts[p] != start.value {
          sched := sched.(wake := sched.wake - {p});
          sched := sched.(wakeMs := sched.wakeMs - {p});
          sched := sched.(off := sched.off - {p});
          sched := sched.(offMs := sched.offMs - {p});
        }
        sched := sched.(starts := sched.starts[p := start.value]);
      }
    }

    method TakeOff(p: nat, at: nat)
      modifies `sched
      ensures sched == BackOn(old(sched), p, at)
    {
      hide Pushed;
      if p in sched.off {
        var began := sched.off[p];
        sched := sched.(off := sched.off - {p});
        if at >= began {
          var windows := PushAt(sched.offMs, p, at - began);
          sched := sched.(offMs := windows);
        }
      }
    }

    method RecordWake(p: nat, ns: nat, cpu: nat, group: Option<nat>)
      modifies `sched
      ensures sched == Logged(old(sched), p, ns, cpu, group)
    {
      hide Pushed;
      var values := PushAt(sched.wakeMs, p, ns);
      var cpuValues := PushAt(sched.wakeCpu, cpu, ns);
      sched := sched.(wakeMs := values, wakeCpu := cpuValues);
      if group.Some? && group.value != 0 && (|sched.wakeGroup| < GROUP_LIMIT || group.value in sched.wakeGroup) {
        var groupValues := PushAt(sched.wakeGroup, group.value, ns);
        sched := sched.(wakeGroup := groupValues);
      }
    }

    method Answer(p: nat, at: nat, cpu: nat, group: Option<nat>)
      modifies `sched, `paired
      ensures sched == Running(old(sched), p, at, cpu, group)
      ensures paired == old(paired) + One(Answers(old(sched), p, at))
    {
      hide Logged;
      if p in sched.wake {
        var began := sched.wake[p];
        sched := sched.(wake := sched.wake - {p});
        if at >= began {
          RecordWake(p, at - began, cpu, group);
          paired := paired + 1;
        }
      }
    }

    method OnSwitch(w: What, at: nat, cpu: nat)
      requires w.Switch?
      modifies `sched, `paired, `moves
      ensures sched == Switched(old(sched), w, at, cpu)
      ensures moves == old(moves).(switches := Plus(old(moves).switches, cpu, 1))
      ensures paired == old(paired) + One(w.next.Some? && Answers(Switching(old(sched), w, at), w.next.value, at))
    {
      hide Started, BackOn, Running, Pushed;
      moves :=
        moves.(switches := moves.switches[cpu := (if cpu in moves.switches then moves.switches[cpu] else 0) + 1]);
      if w.next.Some? {
        Start(w.next.value, w.start);
        TakeOff(w.next.value, at);
      }
      if w.prev.Some? && w.prev.value != 0 {
        sched := sched.(off := sched.off[w.prev.value := at]);
      }
      assert sched == Switching(old(sched), w, at);
      hide Switching, Answers;
      if w.next.Some? {
        Answer(w.next.value, at, cpu, w.cgroup);
      }
      if w.runnable && w.prev.Some? && w.prev.value != 0 && w.prev.value !in sched.wake {
        sched := sched.(wake := sched.wake[w.prev.value := at]);
      }
    }

    // ---- System calls and interrupts ----

    method CountCaller(id: nat, pid: nat)
      modifies `calls
      ensures calls == old(calls).(callers := Caller(old(calls).callers, id, pid))
    {
      var known: map<nat, nat> := if id in calls.callers then calls.callers[id] else map[];
      if |known| < CALLER_LIMIT || pid in known {
        known := known[pid := (if pid in known then known[pid] else 0) + 1];
      }
      calls := calls.(callers := calls.callers[id := known]);
    }

    method OnLeave(pid: nat, at: nat, failed: bool, errno: Option<nat>)
      modifies `calls, `paired
      ensures calls == Returned(old(calls), pid, at, failed, errno)
      ensures paired == old(paired) + One(Returns(old(calls), pid, at))
    {
      hide Pushed, Plus, Caller;
      if pid in calls.open {
        var began, id := calls.open[pid].0, calls.open[pid].1;
        calls := calls.(open := calls.open - {pid});
        if at >= began {
          var values := PushAt(calls.ms, id, at - began);
          calls := calls.(count := Plus(calls.count, id, 1), ms := values);
          if failed {
            calls := calls.(errors := Plus(calls.errors, id, 1));
          }
          CountCaller(id, pid);
          if errno.Some? {
            calls := calls.(errnos := Plus(calls.errnos, (id, errno.value), 1));
          }
          paired := paired + 1;
        }
      }
    }

    method OnIrqLeave(cpu: nat, soft: bool, at: nat)
      modifies `irqs, `paired
      ensures irqs == Finished(old(irqs), cpu, soft, at)
      ensures paired == old(paired) + One(Finishes(old(irqs), cpu, soft, at))
    {
      hide Pushed;
      if (cpu, soft) in irqs.open {
        var began, id := irqs.open[(cpu, soft)].0, irqs.open[(cpu, soft)].1;
        irqs := irqs.(open := irqs.open - {(cpu, soft)});
        if at >= began {
          var key := if soft then id else id + HARD;
          var values := PushAt(irqs.ms, key, at - began);
          irqs := irqs.(ns := Plus(irqs.ns, (cpu, key), at - began), ms := values);
          paired := paired + 1;
        }
      }
    }

    method OnMigrate(w: What)
      requires w.Migrate?
      modifies `moves
      ensures moves == Moved(old(moves), w)
    {
      if w.moved.Some? {
        moves := moves.(tasks := Plus(moves.tasks, w.moved.value, 1));
      }
      if w.group.Some? && w.group.value != 0 {
        moves := moves.(groups := Plus(moves.groups, w.group.value, 1));
      }
      if w.dest.Some? {
        moves := moves.(cpus := Plus(moves.cpus, w.dest.value, 1));
      }
    }

    method OnExit(p: nat)
      modifies `sched, `calls, `moves
      ensures sched == SchedExit(old(sched), p)
      ensures calls == old(calls).(open := old(calls).open - {p})
      ensures moves == old(moves).(tasks := old(moves).tasks - {p})
    {
      sched := sched.(wake := sched.wake - {p}, wakeMs := sched.wakeMs - {p}, starts := sched.starts - {p});
      sched := sched.(off := sched.off - {p}, offMs := sched.offMs - {p});
      calls := calls.(open := calls.open - {p});
      moves := moves.(tasks := moves.tasks - {p});
    }

    // ---- One event ----

    method Handle(e: Input)
      requires e.Event?
      modifies this
      ensures Now() == Handled(old(Now()), e)
      ensures history == old(history) && first == old(first)
    {
      hide Switched, Switching, Returned, Finished, Moved, SchedExit, Plus, Answers, Returns, Finishes;
      match e.what {
        case Wakeup(p) =>
          if p.Some? && p.value !in sched.wake { sched := sched.(wake := sched.wake[p.value := e.at]); }
        case Switch(_, _, _, _, _) => OnSwitch(e.what, e.at, e.cpu);
        case Migrate(_, _, _) => OnMigrate(e.what);
        case Exit(p) => OnExit(if p.Some? then p.value else e.pid);
        case Enter(call) =>
          if call.Some? { calls := calls.(open := calls.open[e.pid := (e.at, call.value)]); }
        case Leave(failed, errno) => OnLeave(e.pid, e.at, failed, errno);
        case IrqEnter(soft, id) => irqs := irqs.(open := irqs.open[(e.cpu, soft) := (e.at, id)]);
        case IrqLeave(soft) => OnIrqLeave(e.cpu, soft, e.at);
        case Other =>
      }
    }

    method Forget(n: nat)
      modifies `lost, `sched, `calls, `irqs
      ensures Now() == Lose(old(Now()), n)
    {
      lost := lost + n;
      sched := sched.(wake := map[], off := map[]);
      calls := calls.(open := map[]);
      irqs := irqs.(open := map[]);
    }

    method Bound()
      modifies `lost, `sched, `calls, `irqs, `moves
      ensures Now() == Bounded(old(Now()))
    {
      hide Lose;
      if |moves.tasks| > TABLE_LIMIT || |moves.groups| > GROUP_LIMIT {
        moves := moves.(tasks := map[], groups := map[]);
        Forget(1);
      }
      assert Now() == BoundMoves(old(Now()));
      if |sched.starts| > TABLE_LIMIT {
        sched := sched.(starts := map[]);
        Forget(1);
      }
      assert Now() == BoundStarts(BoundMoves(old(Now())));
      if |sched.offMs| > CAP {
        sched := sched.(offMs := map[]);
        Forget(1);
      }
      if |sched.wakeMs| > CAP {
        sched := sched.(wakeMs := map[]);
        Forget(1);
      }
      if |sched.wake| > TABLE_LIMIT || |calls.open| > TABLE_LIMIT || |sched.off| > TABLE_LIMIT {
        Forget(1);
      }
    }

    method Consume(e: Input)
      requires Valid() && e.Event?
      modifies this
      ensures Valid() && history == old(history) + [e]
      ensures Now() == Step(old(Now()), e)
    {
      hide Handled, Bounded, Fresh;
      Handle(e);
      Bound();
      history := history + [e];
      RunSnoc(first, old(history), e);
    }

    method Loss(n: nat)
      requires Valid()
      modifies this
      ensures Valid() && history == old(history) + [Lost(n)]
      ensures Now() == Step(old(Now()), Lost(n))
    {
      hide Lose, Fresh;
      Forget(n);
      history := history + [Lost(n)];
      RunSnoc(first, old(history), Lost(n));
    }
  }

  lemma RunSnoc(s: State, h: seq<Input>, e: Input)
    ensures Run(s, h + [e]) == Step(Run(s, h), e)
  {
    hide Step;
    assert (h + [e])[..|h|] == h;
  }
}
