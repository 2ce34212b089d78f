/** Verification of an issue over the last minute of a series: missing data is inconclusive. */
module Verdicts {
  import opened Wrappers
  import opened Numbers
  import opened ChunkHeap

  datatype Verdict = Passed | Failed | Inconclusive

  const WINDOW_MS: nat := 60000
  const ENOUGH: nat := 60
  const EDGE_MS: nat := 1000
  const GAP_MS: nat := 1500

  /** The comparison `>` of floating-point values: false with a side that is not a number. */
  predicate Above(v: Reading, t: Reading) {
    match (v, t)
    case (Finite(a), Finite(b)) => a > b
    case (Infinite(up), Finite(_)) => up
    case (Finite(_), Infinite(up)) => !up
    case (Infinite(a), Infinite(b)) => a && !b
    case _ => false
  }

  /** The comparison `<=`: false with a side that is not a number. */
  predicate AtMost(v: Reading, t: Reading) { v != NotANumber && t != NotANumber && !Above(v, t) }

  function Recent(s: seq<Sample>, start: nat, end: nat): seq<Sample> {
    if s == [] then []
    else (if start <= s[0].at <= end then [s[0]] else []) + Recent(s[1..], start, end)
  }

  predicate Gapless(w: seq<Sample>) { forall i :: 0 < i < |w| ==> SaturatingSub(w[i].at, w[i - 1].at) <= GAP_MS }

  predicate Complete(w: seq<Sample>) { forall i :: 0 <= i < |w| ==> w[i].value.Some? }

  predicate Conclusive(w: seq<Sample>, end: nat) {
    && end >= WINDOW_MS && |w| >= ENOUGH
    && w[0].at <= SaturatingSub(end, WINDOW_MS) + EDGE_MS
    && SaturatingSub(end, w[|w| - 1].at) <= EDGE_MS
    && Gapless(w) && Complete(w)
  }

  predicate Exceeded(w: seq<Sample>, threshold: Reading) {
    exists i :: 0 <= i < |w| && w[i].value.Some? && Above(w[i].value.value, threshold)
  }

  /** `verify`. */
  function Verify(s: seq<Sample>, end: nat, threshold: Reading): Verdict {
    var w := Recent(s, SaturatingSub(end, WINDOW_MS), end);
    if !Conclusive(w, end) then Inconclusive
    else if Exceeded(w, threshold) then Failed
    else Passed
  }

  /** A sample of the minute that ends there. */
  predicate InMinute(s: seq<Sample>, end: nat, x: Sample) { x in s && end - WINDOW_MS <= x.at <= end }

  lemma {:induction false} RecentMembers(s: seq<Sample>, start: nat, end: nat)
    ensures forall r :: r in Recent(s, start, end) <==> r in s && start <= r.at <= end
  {
    if s == [] {
    } else {
      RecentMembers(s[1..], start, end);
      assert s == [s[0]] + s[1..];
    }
  }

  /** Between two neighbours of a gapless run, any time is close to one of them. */
  lemma {:induction false} Covered(w: seq<Sample>, t: nat) returns (i: nat)
    requires w != [] && Gapless(w) && w[0].at <= t + EDGE_MS && t <= w[|w| - 1].at + EDGE_MS
    ensures i < |w| && w[i].at <= t + EDGE_MS && t <= w[i].at + GAP_MS
  {
    var n := |w| - 1;
    if w[n].at <= t + EDGE_MS {
      i := n;
    } else {
      assert n > 0;
      assert SaturatingSub(w[n].at, w[n - 1].at) <= GAP_MS;
      i := Covered(w[..n], t);
    }
  }

  /**
    A conclusive verdict rests on the whole minute: every moment of it has a reading in the series at most a second
    ahead or a second and a half back; failed means that a reading of the minute is above the threshold, passed that
    none is.
   */
  lemma VerdictMeaning(s: seq<Sample>, end: nat, threshold: Reading, t: nat) returns (r: Sample)
    requires Verify(s, end, threshold) != Inconclusive && end - WINDOW_MS <= t <= end
    ensures end >= WINDOW_MS
    ensures InMinute(s, end, r) && r.at <= t + EDGE_MS && t <= r.at + GAP_MS
    ensures forall x :: InMinute(s, end, x) ==> x.value.Some?
    ensures Verify(s, end, threshold) == Passed <==>
            forall x :: InMinute(s, end, x) ==> !Above(x.value.value, threshold)
  {
    hide Above;
    var w := Recent(s, SaturatingSub(end, WINDOW_MS), end);
    RecentMembers(s, SaturatingSub(end, WINDOW_MS), end);
    var i := Covered(w, t);
    r := w[i];
    assert r in w;
    forall x | InMinute(s, end, x) ensures x in w && x.value.Some? {
      var k :| 0 <= k < |w| && w[k] == x;
    }
    if Exceeded(w, threshold) {
      var k :| 0 <= k < |w| && w[k].value.Some? && Above(w[k].value.value, threshold);
      assert w[k] in w;
    } else {
      forall x | x in w ensures !Above(x.value.value, threshold) {
        var k :| 0 <= k < |w| && w[k] == x;
      }
    }
  }

  /**
    A passed minute stayed at or below the threshold if and only if the threshold and every reading of it are numbers:
    a reading that is not one is neither missing nor above.
   */
  lemma PassedIsBelowIff(s: seq<Sample>, end: nat, threshold: Reading)
    requires Verify(s, end, threshold) == Passed
    ensures forall x :: InMinute(s, end, x) ==> x.value.Some?
    ensures (forall x :: InMinute(s, end, x) ==> AtMost(x.value.value, threshold)) <==>
            threshold != NotANumber && forall x :: InMinute(s, end, x) ==> x.value.value != NotANumber
  {
    var r := VerdictMeaning(s, end, threshold, end);
    hide Verify, Above;
  }

  lemma {:induction false} AllRecent(s: seq<Sample>, start: nat, end: nat)
    requires forall x :: x in s ==> start <= x.at <= end
    ensures Recent(s, start, end) == s
  {
    if s == [] {
    } else {
      AllRecent(s[1..], start, end);
      assert s == [s[0]] + s[1..];
    }
  }

  /** The places of the readings of a time span. */
  function Places(s: seq<Sample>, start: nat, end: nat): (r: seq<nat>)
    ensures forall i :: 0 <= i < |r| ==> r[i] < |s|
  {
    if s == [] then []
    else Places(s[..|s| - 1], start, end) + if start <= s[|s| - 1].at <= end then [|s| - 1] else []
  }

  /** These are the places of the readings of the minute, in order. */
  ghost predicate MinuteOf(s: seq<Sample>, end: nat, places: seq<nat>) {
    && (forall i :: 0 <= i < |places| ==> places[i] < |s|)
    && (forall i, j :: 0 <= i < j < |places| ==> places[i] < places[j])
    && forall p: nat :: p in places <==> p < |s| && end <= s[p].at + 60000 && s[p].at <= end
  }

  ghost predicate PlacesOf(s: seq<Sample>, start: nat, end: nat, r: seq<nat>) {
    && (forall i :: 0 <= i < |r| ==> r[i] < |s|)
    && (forall i, j :: 0 <= i < j < |r| ==> r[i] < r[j])
    && forall p: nat :: p in r <==> p < |s| && start <= s[p].at <= end
  }

  ghost predicate Picked(s: seq<Sample>, r: seq<nat>, w: seq<Sample>) {
    |w| == |r| && forall i :: 0 <= i < |r| ==> r[i] < |s| && w[i] == s[r[i]]
  }

  lemma PickedSnoc(s: seq<Sample>, x: Sample, r: seq<nat>, w: seq<Sample>)
    requires Picked(s, r, w)
    ensures Picked(s + [x], r, w) && Picked(s + [x], r + [|s|], w + [x])
  {
  }

  lemma PlacesSnoc(s: seq<Sample>, x: Sample, start: nat, end: nat, r: seq<nat>)
    requires PlacesOf(s, start, end, r)
    ensures PlacesOf(s + [x], start, end, r + if start <= x.at <= end then [|s|] else [])
  {
    var t, q := s + [x], r + if start <= x.at <= end then [|s|] else [];
    forall p: nat ensures p in q <==> p < |t| && start <= t[p].at <= end {
      if p < |s| { assert t[p] == s[p]; }
    }
  }

  lemma {:induction false} PlacesAre(s: seq<Sample>, start: nat, end: nat)
    ensures PlacesOf(s, start, end, Places(s, start, end))
    ensures Picked(s, Places(s, start, end), Recent(s, start, end))
  {
    if s == [] {
    } else {
      hide Recent, PlacesOf, Picked;
      var before, x := s[..|s| - 1], s[|s| - 1];
      PlacesAre(before, start, end);
      RecentSnoc(before, x, start, end);
      PlacesSnoc(before, x, start, end, Places(before, start, end));
      PickedSnoc(before, x, Places(before, start, end), Recent(before, start, end));
      assert s == before + [x];
      assert Places(before, start, end) + [] == Places(before, start, end);
      assert Recent(before, start, end) + [] == Recent(before, start, end);
    }
  }

  lemma {:induction false} RecentSnoc(s: seq<Sample>, x: Sample, start: nat, end: nat)
    ensures Recent(s + [x], start, end) == Recent(s, start, end) + if start <= x.at <= end then [x] else []
  {
    if s == [] {
      assert [] + [x] == [x] && [x][1..] == [];
    } else {
      assert (s + [x])[1..] == s[1..] + [x];
      RecentSnoc(s[1..], x, start, end);
    }
  }

  /**
    A verdict is given exactly if the minute is over, has at least 60 readings, none missing, the first within its
    first second, the last within its last, and no two in a row more than a second and a half apart.
   */
  lemma ConclusiveIff(s: seq<Sample>, end: nat, threshold: Reading) returns (places: seq<nat>)
    ensures MinuteOf(s, end, places)
    ensures Verify(s, end, threshold) != Inconclusive <==>
            && end >= 60000 && |places| >= 60
            && s[places[0]].at + 59000 <= end && end <= s[places[|places| - 1]].at + 1000
            && (forall i :: 0 < i < |places| ==> s[places[i]].at <= s[places[i - 1]].at + 1500)
            && forall i :: 0 <= i < |places| ==> s[places[i]].value.Some?
  {
    hide Recent, Places, Exceeded, PlacesOf, Picked, MinuteOf, Gapless, Complete;
    var start := SaturatingSub(end, WINDOW_MS);
    places := Places(s, start, end);
    PlacesAre(s, start, end);
    MinuteIs(s, end, places);
    var w := Recent(s, start, end);
    GapsIff(s, w, places);
  }

  lemma MinuteIs(s: seq<Sample>, end: nat, places: seq<nat>)
    requires PlacesOf(s, SaturatingSub(end, WINDOW_MS), end, places)
    ensures MinuteOf(s, end, places)
  {
  }

  lemma GapsIff(s: seq<Sample>, w: seq<Sample>, places: seq<nat>)
    requires Picked(s, places, w)
    ensures |w| == |places| && forall i :: 0 <= i < |places| ==> places[i] < |s|
    ensures w != [] ==> w[0] == s[places[0]] && w[|w| - 1] == s[places[|places| - 1]]
    ensures Gapless(w) <==> forall i :: 0 < i < |places| ==> s[places[i]].at <= s[places[i - 1]].at + 1500
    ensures Complete(w) <==> forall i :: 0 <= i < |places| ==> s[places[i]].value.Some?
  {
    assert forall i :: 0 < i < |w| ==>
             (SaturatingSub(w[i].at, w[i - 1].at) <= GAP_MS <==> s[places[i]].at <= s[places[i - 1]].at + 1500);
  }

  /** One reading a second for the minute up to `end`, none of them a number. */
  function Undefined(end: nat): seq<Sample>
    requires end >= WINDOW_MS
  {
    seq(61, i requires 0 <= i < 61 => Sample(end - WINDOW_MS + 1000 * i, Some(NotANumber)))
  }

  lemma UndefinedReadings(end: nat, threshold: Reading)
    requires end >= WINDOW_MS
    ensures var s := Undefined(end);
            && |s| == 61 && s[0].at == end - WINDOW_MS && s[|s| - 1].at == end
            && Gapless(s) && Complete(s) && !Exceeded(s, threshold)
            && forall x :: x in s ==> end - WINDOW_MS <= x.at <= end
  {
  }

  /** Such a minute passes at any threshold. */
  lemma NotANumberPasses(end: nat, threshold: Reading)
    requires end >= WINDOW_MS
    ensures Verify(Undefined(end), end, threshold) == Passed
  {
    hide Undefined, Gapless, Complete, Exceeded, Recent;
    UndefinedReadings(end, threshold);
    AllRecent(Undefined(end), end - WINDOW_MS, end);
  }
}
