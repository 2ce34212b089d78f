/**
  Reviewed changes of host controls: preview, apply and revert against a host that
  may change between commands, with every intent persisted before its write.
 */
module ReviewedActions {
  import opened Wrappers
  import opened Text
  import opened CpuSets

  // ---- The host ----

  /** A control of the host: which object it is, its configured text and its effective text, if that can be read. */
  datatype Control = Control(identity: Option<nat>, value: string, effective: Option<string>)

  type Host = map<string, Control>

  /** How the kernel answers a write: it refuses, or takes it and leaves the control in some state, perhaps gone. */
  datatype Reply = Refused | Stored(left: Option<Control>)

  function Written(h: Host, path: string, reply: Reply): Host {
    match reply
    case Refused => h
    case Stored(Some(c)) => h[path := c]
    case Stored(None) => h - {path}
  }

  // ---- Plans ----

  datatype Outcome = Reviewed | ApplyDone | ApplyFailed | RevertAsked | RevertDone | RevertFailed

  datatype Plan = Plan(id: nat, demo: bool, target: string, before: string, after: string, identity: Option<nat>,
                       effectiveBefore: Option<string>, effectiveAfter: Option<string>,
                       applied: bool, verified: bool, outcome: Outcome)

  /** What a command on a plan leaves: the plan, the host, and whether it wrote the host and succeeded. */
  datatype Done = Done(plan: Plan, host: Host, wrote: bool, ok: bool)

  /** The same reviewed change, whatever its progress. */
  predicate SameIntent(p: Plan, q: Plan) {
    p.id == q.id && p.demo == q.demo && p.target == q.target && p.before == q.before && p.after == q.after &&
    p.identity == q.identity
  }

  function Previewed(h: Host, id: nat, demo: bool, target: string, after: string): Option<Plan> {
    if target !in h || h[target].effective.None? then None
    else Some(Plan(id, demo, target, h[target].value, after, h[target].identity, h[target].effective,
                   None, false, false, Reviewed))
  }

  /** The configured text reads back as asked, and the effective text is allowed. */
  predicate Honoured(h: Host, target: string, asked: string) {
    && target in h && h[target].effective.Some?
    && Equivalent(target, h[target].value, asked)
    && EffectiveAllowed(target, h[target].effective.value, asked)
  }

  function EffectiveOf(h: Host, target: string): Option<string> { if target in h then h[target].effective else None }

  /** The plan after a write that asked for some text, judged by reading back. */
  function ReadBack(p: Plan, h: Host, asked: string): Plan {
    if EffectiveOf(h, p.target).None? then p
    else p.(effectiveAfter := EffectiveOf(h, p.target), verified := Honoured(h, p.target, asked))
  }

  predicate Unchanged(p: Plan, h: Host) {
    p.target in h && h[p.target].identity == p.identity && h[p.target].value == p.before
  }

  predicate StillApplied(p: Plan, h: Host) {
    p.target in h && h[p.target].identity == p.identity && p.applied && Equivalent(p.target, h[p.target].value, p.after)
  }

  function Applying(p: Plan, h: Host, reply: Reply): Done {
    if !Unchanged(p, h) || reply.Refused? then Done(p.(outcome := ApplyFailed), h, false, false)
    else
      var g := Written(h, p.target, reply);
      var ok := Honoured(g, p.target, p.after);
      Done(ReadBack(p.(applied := true), g, p.after).(outcome := if ok then ApplyDone else ApplyFailed), g, true, ok)
  }

  function Reverting(p: Plan, h: Host, reply: Reply): Done {
    if !StillApplied(p, h) || reply.Refused? then Done(p.(outcome := RevertFailed), h, false, false)
    else
      var g := Written(h, p.target, reply);
      var ok := Honoured(g, p.target, p.before);
      Done(ReadBack(p, g, p.before).(applied := !ok, outcome := if ok then RevertDone else RevertFailed), g, true, ok)
  }

  method Apply(plan: Plan, host: Host, reply: Reply) returns (p: Plan, h: Host, wrote: bool, ok: bool)
    ensures Done(p, h, wrote, ok) == Applying(plan, host, reply)
  {
    hide Equivalent, EffectiveAllowed;
    p, h, wrote, ok := plan, host, false, false;
    p := p.(outcome := ApplyFailed);
    if p.target !in h || h[p.target].identity != p.identity { return; }
    if h[p.target].value != p.before { return; }
    if reply.Refused? { return; }
    h := Written(h, p.target, reply);
    wrote := true;
    p := p.(applied := true);
    if p.target !in h || h[p.target].effective.None? { return; }
    p := p.(effectiveAfter := h[p.target].effective);
    var same := CheckEquivalent(p.target, h[p.target].value, p.after);
    p := p.(verified := same && EffectiveAllowed(p.target, h[p.target].effective.value, p.after));
    if !p.verified { return; }
    p := p.(outcome := ApplyDone);
    ok := true;
  }

  method Revert(plan: Plan, host: Host, reply: Reply) returns (p: Plan, h: Host, wrote: bool, ok: bool)
    ensures Done(p, h, wrote, ok) == Reverting(plan, host, reply)
  {
    hide Equivalent, EffectiveAllowed;
    p, h, wrote, ok := plan, host, false, false;
    p := p.(outcome := RevertFailed);
    if p.target !in h || h[p.target].identity != p.identity { return; }
    if !p.applied { return; }
    var still := CheckEquivalent(p.target, h[p.target].value, p.after);
    if !still { return; }
    if reply.Refused? { return; }
    h := Written(h, p.target, reply);
    wrote := true;
    if p.target !in h || h[p.target].effective.None? { return; }
    p := p.(effectiveAfter := h[p.target].effective);
    var same := CheckEquivalent(p.target, h[p.target].value, p.before);
    p := p.(verified := same && EffectiveAllowed(p.target, h[p.target].effective.value, p.before));
    if !p.verified { return; }
    p := p.(applied := false, outcome := RevertDone);
    ok := true;
  }

  // ---- What a plan's commands mean ----

  /** A preview needs a control whose text and effective text can be read, and notes both with its identity. */
  lemma PreviewedIff(h: Host, id: nat, demo: bool, target: string, after: string)
    ensures var p := Previewed(h, id, demo, target, after);
            && (p.Some? <==> target in h && h[target].effective.Some?)
            && (p.Some? ==>
                  var (c, q) := (h[target], p.value);
                  && q.id == id && q.demo == demo && q.target == target && q.after == after
                  && q.before == c.value && q.identity == c.identity && q.effectiveBefore == c.effective
                  && q.effectiveAfter.None? && !q.applied && !q.verified && q.outcome == Reviewed)
  {
  }

  /** The control a taken write leaves. */
  function Left(reply: Reply): Option<Control> { if reply.Stored? then reply.left else None }

  /** The control reads back as asked, and its effective text is one the request allows. */
  predicate Confirmed(target: string, left: Option<Control>, asked: string) {
    && left.Some? && left.value.effective.Some?
    && Equivalent(target, left.value.value, asked)
    && EffectiveAllowed(target, left.value.effective.value, asked)
  }

  /** The control was taken away, or its effective text cannot be read: nothing to judge by. */
  predicate Unread(left: Option<Control>) { left.None? || left.value.effective.None? }

  /**
    Applying any plan on any host: it writes exactly to the object and text previewed, succeeds exactly if what is left
    confirms the request, and notes in the plan that it was written and what was read back.
   */
  lemma ApplyMeaning(p: Plan, h: Host, reply: Reply)
    ensures var d, left := Applying(p, h, reply), Left(reply);
            && (d.wrote <==> reply.Stored? && p.target in h && h[p.target].identity == p.identity
                             && h[p.target].value == p.before)
            && (d.ok <==> d.wrote && Confirmed(p.target, left, p.after))
            && d.host == (if !d.wrote then h else if left.Some? then h[p.target := left.value] else h - {p.target})
            && d.plan == p.(outcome := if d.ok then ApplyDone else ApplyFailed, applied := p.applied || d.wrote,
                            verified := if d.wrote && !Unread(left) then d.ok else p.verified,
                            effectiveAfter := if d.wrote && !Unread(left) then left.value.effective
                                              else p.effectiveAfter)
  {
    hide Equivalent, EffectiveAllowed;
  }

  /**
    Reverting any plan on any host: it writes exactly to an applied plan's object while that still shows the applied
    text, and clears the plan exactly if what is left confirms the text from before.
   */
  lemma RevertMeaning(p: Plan, h: Host, reply: Reply)
    ensures var d, left := Reverting(p, h, reply), Left(reply);
            && (d.wrote <==> reply.Stored? && p.applied && p.target in h && h[p.target].identity == p.identity
                             && Equivalent(p.target, h[p.target].value, p.after))
            && (d.ok <==> d.wrote && Confirmed(p.target, left, p.before))
            && d.host == (if !d.wrote then h else if left.Some? then h[p.target := left.value] else h - {p.target})
            && d.plan == p.(outcome := if d.ok then RevertDone else RevertFailed, applied := p.applied && !d.ok,
                            verified := if d.wrote && !Unread(left) then d.ok else p.verified,
                            effectiveAfter := if d.wrote && !Unread(left) then left.value.effective
                                              else p.effectiveAfter)
  {
    hide Equivalent, EffectiveAllowed;
  }

  /** Applying an undisturbed plan succeeds exactly when the kernel honours the requested text. */
  lemma ApplySucceedsIff(h: Host, id: nat, demo: bool, target: string, after: string, reply: Reply)
    requires Previewed(h, id, demo, target, after).Some?
    ensures var d := Applying(Previewed(h, id, demo, target, after).value, h, reply);
            && (d.ok <==> !reply.Refused? && Honoured(Written(h, target, reply), target, after))
            && (d.plan.applied <==> !reply.Refused?)
            && (forall path :: path != target ==>
                (path in d.host <==> path in h) && (path in h ==> d.host[path] == h[path]))
  {
    hide Honoured;
  }

  /** Undisturbed preview, apply and revert restore a text equivalent to the one previewed. */
  lemma RoundTrip(h: Host, id: nat, demo: bool, target: string, after: string, forth: Reply, back: Reply)
    requires Previewed(h, id, demo, target, after).Some?
    ensures var p := Previewed(h, id, demo, target, after).value;
            var a := Applying(p, h, forth);
            var r := Reverting(a.plan, a.host, back);
            && (r.ok ==>
                target in r.host && Equivalent(target, r.host[target].value, h[target].value) && !r.plan.applied)
            && (a.ok && a.host[target].identity == p.identity && back.Stored? &&
                Honoured(Written(a.host, target, back), target, p.before)
                ==> r.ok)
            && (!r.ok ==> r.plan.applied == a.plan.applied)
  {
    hide Equivalent, EffectiveAllowed;
  }

  /** An obedient kernel: the control stays the same object, shows the text asked for, and an allowed effective text. */
  predicate Obeys(reply: Reply, target: string, identity: Option<nat>, asked: string) {
    && reply.Stored? && reply.left.Some?
    && reply.left.value.identity == identity
    && Trim(reply.left.value.value) == Trim(asked)
    && reply.left.value.effective.Some?
    && EffectiveAllowed(target, reply.left.value.effective.value, asked)
  }

  lemma ObeyedIsHonoured(h: Host, target: string, identity: Option<nat>, asked: string, reply: Reply)
    requires Obeys(reply, target, identity, asked)
    ensures Honoured(Written(h, target, reply), target, asked) <==> Readable(target, asked)
    ensures Written(h, target, reply) == h[target := reply.left.value]
  {
    hide EffectiveAllowed, Trim;
    SameTextEquivalent(target, reply.left.value.value, asked);
  }

  /** Asking for a text by writing it with a line end, as the host does, is obeyed by storing what was written. */
  lemma WrittenLineObeys(target: string, identity: Option<nat>, asked: string, effective: string)
    requires EffectiveAllowed(target, effective, asked)
    ensures Obeys(Stored(Some(Control(identity, Trim(asked) + "\n", Some(effective)))), target, identity, asked)
  {
    hide EffectiveAllowed, Trim;
    TrimLine(asked);
  }

  /**
    On an obedient host an undisturbed plan can be applied exactly if the request is readable, and then be reverted
    exactly if the text it replaced is readable; the control then shows that text again.
   */
  lemma ObedientRoundTrip(h: Host, id: nat, demo: bool, target: string, after: string, forth: Reply, back: Reply)
    requires Previewed(h, id, demo, target, after).Some?
    requires Obeys(forth, target, h[target].identity, after)
    requires Obeys(back, target, h[target].identity, h[target].value)
    ensures var a := Applying(Previewed(h, id, demo, target, after).value, h, forth);
            var r := Reverting(a.plan, a.host, back);
            && (a.ok <==> Readable(target, after))
            && (a.ok ==> (r.ok <==> Readable(target, h[target].value)))
            && (a.ok && r.ok ==>
                target in r.host && Trim(r.host[target].value) == Trim(h[target].value) && !r.plan.applied)
  {
    hide EffectiveAllowed, Trim, Equivalent, Readable;
    ObeyedIsHonoured(h, target, h[target].identity, after, forth);
    var a := Applying(Previewed(h, id, demo, target, after).value, h, forth);
    if a.ok {
      SameTextEquivalent(target, a.host[target].value, after);
      ObeyedIsHonoured(a.host, target, h[target].identity, h[target].value, back);
    }
  }

  // ---- The application ----

  /** One write of a control: for which journal entry, what the host held, and the journal file at that moment. */
  datatype Write = Write(index: nat, plan: Plan, rollback: bool, verified: bool, found: Control, durable: seq<Plan>)

  /** The write was reviewed and persisted, and the host was as the plan expects. */
  ghost predicate Sanctioned(w: Write) {
    && w.index < |w.durable| && SameIntent(w.durable[w.index], w.plan)
    && w.found.identity == w.plan.identity
    && (!w.rollback ==> w.found.value == w.plan.before)
    && (w.rollback ==> w.plan.applied && Equivalent(w.plan.target, w.found.value, w.plan.after))
  }

  /** By the writes so far, a journal entry is in force: applied, and not since rolled back and verified. */
  ghost predicate InForce(log: seq<Write>, index: nat) {
    if log == [] then false
    else
      var w := log[|log| - 1];
      if w.index == index && (!w.rollback || w.verified) then !w.rollback else InForce(log[..|log| - 1], index)
  }

  lemma InForceNext(log: seq<Write>, w: Write, index: nat)
    ensures InForce(log + [w], index) ==
            if w.index == index && (!w.rollback || w.verified) then !w.rollback else InForce(log, index)
  {
    assert (log + [w])[..|log|] == log;
  }

  /** Every write was sanctioned, and an entry says `applied` exactly while its change is in force. */
  ghost predicate Truthful(journal: seq<Plan>, log: seq<Write>) {
    && (forall i :: 0 <= i < |log| ==> Sanctioned(log[i]) && log[i].index < |journal|)
    && (forall i: nat :: i < |journal| ==> journal[i].applied == InForce(log, i))
  }

  lemma {:induction false} NotInForce(log: seq<Write>, index: nat)
    requires forall i :: 0 <= i < |log| ==> log[i].index < index
    ensures !InForce(log, index)
  {
    if log == [] {
    } else {
      NotInForce(log[..|log| - 1], index);
    }
  }

  /** A new entry that has not been written for. */
  lemma EntryKeeps(journal: seq<Plan>, log: seq<Write>, p: Plan)
    requires Truthful(journal, log) && !p.applied
    ensures Truthful(journal + [p], log)
  {
    hide Sanctioned;
    NotInForce(log, |journal|);
  }

  /** A change of the last entry that is no write. */
  lemma UpdateKeeps(journal: seq<Plan>, log: seq<Write>, p: Plan)
    requires Truthful(journal, log) && journal != [] && p.applied == journal[|journal| - 1].applied
    ensures Truthful(journal[|journal| - 1 := p], log)
  {
    hide Sanctioned, InForce;
  }

  /** A sanctioned write for the last entry, after which the entry says what happened. */
  lemma WriteKeeps(journal: seq<Plan>, log: seq<Write>, p: Plan, w: Write)
    requires Truthful(journal, log) && journal != [] && w.index == |journal| - 1 && Sanctioned(w)
    requires w.rollback ==> journal[|journal| - 1].applied
    requires p.applied == (!w.rollback || !w.verified)
    ensures Truthful(journal[|journal| - 1 := p], log + [w])
  {
    hide Sanctioned;
    forall i: nat | i < |journal|
      ensures InForce(log + [w], i) ==
              if w.index == i && (!w.rollback || w.verified) then !w.rollback else InForce(log, i)
    {
      InForceNext(log, w, i);
    }
    hide InForce;
  }

  class Application {
    var pending: Option<Plan>
    var journal: seq<Plan>
    /** The journal file. */
    var saved: seq<Plan>
    var demo: bool
    var replay: bool
    var demoHost: Host
    var linuxHost: Host
    ghost var writes: seq<Write>

    ghost predicate Valid()
      reads this
    {
      (pending.Some? ==> !pending.value.applied) && Truthful(journal, writes)
    }

    constructor ()
      ensures Valid() && writes == [] && journal == [] && pending.None?
    {
      pending, journal, saved, demo, replay := None, [], [], false, false;
      demoHost, linuxHost, writes := map[], map[], [];
    }

    /** Between commands the hosts, the acquisition mode and replay may change in any way. */
    method Disturb(linux: Host, demoControls: Host, demoNow: bool, replayNow: bool)
      requires Valid()
      modifies `linuxHost, `demoHost, `demo, `replay
      ensures Valid()
    {
      linuxHost, demoHost, demo, replay := linux, demoControls, demoNow, replayNow;
    }

    /** A preview writes no control. In demo mode the fixture's text stands for a control not seen before. */
    method Preview(id: nat, target: string, after: string, fixture: Option<string>)
      requires Valid()
      modifies `pending, `demoHost
      ensures Valid()
      ensures replay || (demo && fixture.None?) ==> pending == old(pending) && demoHost == old(demoHost)
      ensures !replay && (!demo || fixture.Some?) ==>
        && demoHost == (if !demo || target in old(demoHost) then old(demoHost)
                        else old(demoHost)[target := Control(None, fixture.value, fixture)])
        && var plan := Previewed(HostNow(), id, demo, target, after);
           pending == if plan.Some? then plan else old(pending)
    {
      if replay { return; }
      if demo {
        if fixture.None? { return; }
        if target !in demoHost {
          demoHost := demoHost[target := Control(None, fixture.value, fixture)];
        }
      }
      var plan := Previewed(if demo then demoHost else linuxHost, id, demo, target, after);
      if plan.Some? {
        pending := plan;
      }
    }

    /** Replacing the file by a rename: the whole journal, or a failure that leaves the old file. */
    method SaveJournal(works: bool)
      modifies `saved
      ensures saved == if works then journal else old(saved)
    {
      if works { saved := journal; }
    }

    ghost function HostNow(): Host
      reads this
    {
      if demo then demoHost else linuxHost
    }

    method SetHost(h: Host)
      modifies `demoHost, `linuxHost
      ensures HostNow() == h
      ensures demo ==> linuxHost == old(linuxHost)
      ensures !demo ==> demoHost == old(demoHost)
    {
      if demo { demoHost := h; } else { linuxHost := h; }
    }

    /** The reviewed plan is persisted, then applied to the host of its own mode; a failed persist applies nothing. */
    method ApplyPending(id: nat, reply: Reply, persists: bool, persistsAfter: bool)
      requires Valid()
      modifies this
      ensures Valid() && demo == old(demo) && replay == old(replay)
      ensures var d := old(pending);
              var goes := !old(replay) && d.Some? && d.value.demo == old(demo) && id == d.value.id && persists;
              && (!goes ==>
                  && HostNow() == old(HostNow()) && journal == old(journal) && saved == old(saved)
                  && pending == d && writes == old(writes))
              && (goes ==>
                    var done := Applying(d.value, old(HostNow()), reply);
                    && HostNow() == done.host && journal == old(journal) + [done.plan] && pending.None?
                    && saved == (if persistsAfter then journal else old(journal) + [d.value])
                    && writes == old(writes) + if !done.wrote then [] else
                         [Write(|old(journal)|, d.value, false, done.ok, old(HostNow())[d.value.target],
                                old(journal) + [d.value])])
      ensures demo ==> linuxHost == old(linuxHost)
      ensures !demo ==> demoHost == old(demoHost)
    {
      hide Equivalent, EffectiveAllowed, Truthful, Applying, Reverting, Sanctioned, SameIntent;
      if replay || pending.None? { return; }
      var plan := pending.value;
      if plan.demo != demo || id != plan.id { return; }
      journal := journal + [plan];
      SaveJournal(persists);
      if !persists {
        journal := journal[..|journal| - 1];
        return;
      }
      EntryKeeps(old(journal), writes, plan);
      pending := None;
      ghost var found := HostNow();
      var p, h, wrote, ok := Apply(plan, if demo then demoHost else linuxHost, reply);
      ApplyingFacts(plan, found, reply);
      SetHost(h);
      if wrote {
        ApplySanctioned(plan, found, reply, saved, |journal| - 1);
        ghost var w := Write(|journal| - 1, plan, false, ok, found[plan.target], saved);
        WriteKeeps(journal, writes, p, w);
        writes := writes + [w];
      } else {
        UpdateKeeps(journal, writes, p);
      }
      journal := journal[|journal| - 1 := p];
      SaveJournal(persistsAfter);
    }

    /** The last entry is persisted as asked to revert, then reverted on the host of its own mode. */
    method RevertLast(reply: Reply, persists: bool, persistsAfter: bool)
      requires Valid()
      modifies this
      ensures Valid() && demo == old(demo) && replay == old(replay) && pending == old(pending)
      ensures var refused := old(replay) || (old(journal) != [] && Last(old(journal)).demo != old(demo));
              var goes := !refused && old(journal) != [] && persists;
              && (refused ==> journal == old(journal) && saved == old(saved))
              && (!refused && old(journal) == [] ==> journal == [] && saved == if persists then [] else old(saved))
              && (!refused && old(journal) != [] && !persists ==>
                    && saved == old(saved)
                    && journal == old(journal)[|old(journal)| - 1 := Last(old(journal)).(outcome := RevertAsked)])
              && (!goes ==> HostNow() == old(HostNow()) && writes == old(writes))
              && (goes ==>
                    var asked := Last(old(journal)).(outcome := RevertAsked);
                    var done := Reverting(asked, old(HostNow()), reply);
                    var last := |old(journal)| - 1;
                    && HostNow() == done.host && journal == old(journal)[last := done.plan]
                    && saved == (if persistsAfter then journal else old(journal)[last := asked])
                    && writes == old(writes) + if !done.wrote then [] else
                         [Write(last, asked, true, done.ok, old(HostNow())[asked.target], old(journal)[last := asked])])
      ensures demo ==> linuxHost == old(linuxHost)
      ensures !demo ==> demoHost == old(demoHost)
    {
      hide Equivalent, EffectiveAllowed, Truthful, Applying, Reverting, Sanctioned, SameIntent;
      if replay { return; }
      if journal != [] && Last(journal).demo != demo { return; }
      if journal != [] {
        var asked := Last(journal).(outcome := RevertAsked);
        UpdateKeeps(journal, writes, asked);
        journal := journal[|journal| - 1 := asked];
      }
      SaveJournal(persists);
      if !persists || journal == [] { return; }
      var plan := Last(journal);
      ghost var found := HostNow();
      var p, h, wrote, ok := Revert(plan, if demo then demoHost else linuxHost, reply);
      RevertingFacts(plan, found, reply);
      SetHost(h);
      if wrote {
        RevertSanctioned(plan, found, reply, saved, |journal| - 1);
        ghost var w := Write(|journal| - 1, plan, true, ok, found[plan.target], saved);
        WriteKeeps(journal, writes, p, w);
        writes := writes + [w];
      } else {
        UpdateKeeps(journal, writes, p);
      }
      journal := journal[|journal| - 1 := p];
      SaveJournal(persistsAfter);
    }
  }

  /** A write for the plan just persisted is sanctioned. */
  lemma ApplySanctioned(p: Plan, h: Host, reply: Reply, durable: seq<Plan>, index: nat)
    requires Applying(p, h, reply).wrote && index < |durable| && durable[index] == p
    ensures p.target in h && Sanctioned(Write(index, p, false, Applying(p, h, reply).ok, h[p.target], durable))
    ensures Applying(p, h, reply).plan.applied
  {
    hide Equivalent, EffectiveAllowed;
  }

  lemma RevertSanctioned(p: Plan, h: Host, reply: Reply, durable: seq<Plan>, index: nat)
    requires Reverting(p, h, reply).wrote && index < |durable| && durable[index] == p
    ensures p.target in h && Sanctioned(Write(index, p, true, Reverting(p, h, reply).ok, h[p.target], durable))
    ensures p.applied && Reverting(p, h, reply).plan.applied == !Reverting(p, h, reply).ok
  {
    hide Equivalent, EffectiveAllowed;
  }

  /** An apply that writes found the control as previewed, and leaves the plan applied. */
  lemma ApplyingFacts(p: Plan, h: Host, reply: Reply)
    ensures var d := Applying(p, h, reply);
            && (d.wrote ==>
                p.target in h && h[p.target].identity == p.identity && h[p.target].value == p.before && d.plan.applied)
            && (!d.wrote ==> d.host == h && d.plan.applied == p.applied)
            && SameIntent(d.plan, p)
  {
    hide Equivalent, EffectiveAllowed;
  }

  /** A revert that writes found the control still as applied, and clears the plan exactly when verified. */
  lemma RevertingFacts(p: Plan, h: Host, reply: Reply)
    ensures var d := Reverting(p, h, reply);
            && (d.wrote ==> p.target in h && h[p.target].identity == p.identity && p.applied
                            && Equivalent(p.target, h[p.target].value, p.after) && d.plan.applied == !d.ok)
            && (!d.wrote ==> d.host == h && d.plan.applied == p.applied)
            && SameIntent(d.plan, p)
  {
    hide Equivalent, EffectiveAllowed;
  }
}
