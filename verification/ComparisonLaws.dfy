/** What a comparison reports, in terms of the two captures: when it is refused, its warnings, deltas and ranking. */
module ComparisonLaws {
  import opened Wrappers
  import opened Ordering
  import opened Comparison
  import opened ComparisonMeaning
  import opened ProfileCaches
  import Profiles

  /** A comparison is made exactly between captures of one known kind and unit that both have samples. */
  lemma ComparedIff(current: Capture, baseline: Capture, mode: Mode)
    ensures var known := current.kind != Profiles.Unknown && baseline.kind != Profiles.Unknown;
            var alike := current.kind == baseline.kind && current.unit == baseline.unit;
            var r := Compared(current, baseline, mode);
            && (r.Ok? <==> known && alike && current.root.samples > 0 && baseline.root.samples > 0)
            && (r == Err(UnknownProvenance) <==> !known)
            && (r == Err(DifferentUnits) <==> known && !alike)
            && (r.Ok? ==> r.value.mode == mode)
  {
    hide Changes, Warnings;
  }

  /** Each warning is given once, exactly if scopes, durations or frequencies differ, and in that order. */
  lemma WarningsIff(current: Capture, baseline: Capture, mode: Mode)
    requires Compared(current, baseline, mode).Ok?
    ensures var w := Compared(current, baseline, mode).value.warnings;
            && (ScopesDiffer in w <==> current.scope != baseline.scope)
            && (DurationsDiffer in w <==> current.elapsed != baseline.elapsed)
            && (FrequenciesDiffer in w <==> current.hz != baseline.hz)
            && (forall i, j :: 0 <= i < j < |w| ==> !w[i].FrequenciesDiffer? && !w[j].ScopesDiffer? && w[i] != w[j])
  {
    hide Changes;
  }

  lemma Ratio(x: nat, t: nat)
    requires t > 0
    ensures x as real / t as real * t as real == x as real
  {
  }

  lemma ShareDelta(d: real, b: nat, a: nat, before: nat, after: nat)
    requires before > 0 && after > 0 && d == 100.0 * (a as real / after as real - b as real / before as real)
    ensures d * after as real * before as real == 100.0 * (a as real * before as real - b as real * after as real)
  {
    var x, y, m, n := a as real / after as real, b as real / before as real, before as real, after as real;
    Ratio(a, after);
    Ratio(b, before);
    Spread(d, x, y, m, n);
  }

  lemma Spread(d: real, x: real, y: real, m: real, n: real)
    requires d == 100.0 * (x - y)
    ensures d * n * m == 100.0 * ((x * n) * m - (y * m) * n)
  {
  }

  lemma SignOf(d: real, m: real, n: real, z: real)
    requires m > 0.0 && n > 0.0 && d * n * m == 100.0 * z
    ensures d > 0.0 <==> z > 0.0
    ensures d == 0.0 <==> z == 0.0
  {
    assert n * m > 0.0;
    assert d * n * m == d * (n * m);
  }

  /**
    In counts a delta is the current count less the baseline's; in shares it is the difference of the percentages of
    the totals, positive exactly if the frame's share has grown.
   */
  lemma DeltaMeaning(current: Capture, baseline: Capture, mode: Mode, c: Change)
    requires Usable(current, baseline) && c in Compared(current, baseline, mode).value.changes
    ensures mode == Counts ==> c.delta == (c.after as int - c.before as int) as real
    ensures var a, b := current.root.samples as real, baseline.root.samples as real;
            var grown := c.after as real * b - c.before as real * a;
            mode == Shares ==>
              c.delta * a * b == 100.0 * grown && (c.delta > 0.0 <==> grown > 0.0) && (c.delta == 0.0 <==> grown == 0.0)
  {
    hide Compared, Delta, Usable;
    ComparedIff(current, baseline, mode);
    Accepted(current, baseline, mode);
    CompareMeaning(current, baseline, mode, c);
    var e := ScaleOf(current, baseline, mode);
    DeltaOf(e, c.before, c.after);
  }

  /** The arithmetic of a delta, for totals that are not zero. */
  lemma DeltaOf(e: Scale, before: nat, after: nat)
    requires e.before > 0 && e.after > 0
    ensures e.mode == Counts ==> Delta(e, before, after) == (after as int - before as int) as real
    ensures var a, b, d := e.after as real, e.before as real, Delta(e, before, after);
            var grown := after as real * b - before as real * a;
            e.mode == Shares ==>
              d * a * b == 100.0 * grown && (d > 0.0 <==> grown > 0.0) && (d == 0.0 <==> grown == 0.0)
  {
    if e.mode == Shares {
      var d := Delta(e, before, after);
      ShareDelta(d, before, after, e.before, e.after);
      hide Delta;
      SignOf(d, e.before as real, e.after as real, after as real * e.before as real - before as real * e.after as real);
    }
  }

  lemma Accepted(current: Capture, baseline: Capture, mode: Mode)
    requires Usable(current, baseline)
    ensures Compared(current, baseline, mode).Ok?
  {
    hide Changes, Warnings;
  }

  function Magnitude(x: real): real { if x >= 0.0 then x else 0.0 - x }

  /** The prepared order: every change once, larger deltas of either sign first, equal ones by path. */
  lemma OrderMeaning(cs: seq<Change>)
    requires PathsIncrease(cs)
    ensures var order := Order(cs);
            && |order| == |cs|
            && (forall i :: 0 <= i < |order| ==> order[i] < |cs|)
            && (forall i, j :: 0 <= i < j < |order| ==>
                  && order[i] != order[j]
                  && (|| Magnitude(cs[order[i]].delta) > Magnitude(cs[order[j]].delta)
                      || (Magnitude(cs[order[i]].delta) == Magnitude(cs[order[j]].delta)
                          && PathBefore(cs[order[i]].path, cs[order[j]].path))))
  {
    var order := Order(cs);
    OrderRanks(cs);
    PathBeforeStrictTotal();
    hide Order, Sort;
    assert |order| == |multiset(order)| == |multiset(Indices(|cs|))| == |cs|;
    forall i | 0 <= i < |order| ensures order[i] < |cs| {
      assert order[i] in multiset(order);
      assert order[i] in Indices(|cs|);
    }
    forall i, j | 0 <= i < j < |order| ensures Ahead(cs, order[i], order[j]) { }
  }
}
