/** One-second buckets over a series: the one-pass scan and its definition bucket by bucket. */
module SeriesWindow {
  import opened Wrappers
  import opened ChunkHeap

  ghost predicate TimeSorted(s: seq<Sample>) {
    forall i, j :: 0 <= i < j < |s| ==> s[i].at <= s[j].at
  }

  /** The last sample of an interval. */
  function LastIn(s: seq<Sample>, start: nat, stop: nat): Option<Sample> {
    if s == [] then None
    else if start <= s[|s| - 1].at <= stop then Some(s[|s| - 1])
    else LastIn(s[..|s| - 1], start, stop)
  }

  function FiniteOf(s: Option<Sample>): Option<real> {
    match s
    case Some(Sample(_, Some(Finite(v)))) => Some(v)
    case _ => None
  }

  /** The bucket of one absolute second, up to `end`; a bucket needs its own observation. */
  function Bucket(s: seq<Sample>, second: nat, end: nat): Option<real> {
    FiniteOf(LastIn(s, second * 1000, if second * 1000 + 999 < end then second * 1000 + 999 else end))
  }

  /** Slot j of a window of `seconds` seconds ending at `end`; slots before boot stay blank. */
  function Slot(s: seq<Sample>, end: nat, seconds: nat, j: nat): Option<real>
    requires j <= seconds
  {
    if end / 1000 < seconds - j then None else Bucket(s, end / 1000 - (seconds - j), end)
  }

  /** Sample i is the last of its second that is not after the end. */
  ghost predicate Latest(s: seq<Sample>, second: nat, end: nat, i: nat) {
    && i < |s| && s[i].at / 1000 == second && s[i].at <= end
    && forall k :: i < k < |s| ==> s[k].at / 1000 != second || s[k].at > end
  }

  /** Sample i is the last one of an interval. */
  ghost predicate FinalIn(s: seq<Sample>, start: nat, stop: nat, i: nat) {
    i < |s| && start <= s[i].at <= stop && forall k :: i < k < |s| ==> !(start <= s[k].at <= stop)
  }

  lemma {:induction false} FinalIsLastIn(s: seq<Sample>, start: nat, stop: nat, i: nat)
    requires FinalIn(s, start, stop, i)
    ensures LastIn(s, start, stop) == Some(s[i])
  {
    if i < |s| - 1 {
      var t := s[..|s| - 1];
      assert FinalIn(t, start, stop, i) by {
        forall k | i < k < |t| ensures !(start <= t[k].at <= stop) { assert t[k] == s[k]; }
      }
      FinalIsLastIn(t, start, stop, i);
    }
  }

  lemma {:induction false} LastInIsFinal(s: seq<Sample>, start: nat, stop: nat) returns (i: nat)
    requires LastIn(s, start, stop).Some?
    ensures FinalIn(s, start, stop, i)
  {
    if start <= s[|s| - 1].at <= stop {
      i := |s| - 1;
    } else {
      var t := s[..|s| - 1];
      i := LastInIsFinal(t, start, stop);
      forall k | i < k < |s| ensures !(start <= s[k].at <= stop) {
        if k < |t| { assert t[k] == s[k]; }
      }
    }
  }

  lemma WithinSecond(at: nat, second: nat, end: nat)
    ensures second * 1000 <= at <= (if second * 1000 + 999 < end then second * 1000 + 999 else end) <==>
            at / 1000 == second && at <= end
  {
  }

  lemma LatestIsFinal(s: seq<Sample>, second: nat, end: nat, i: nat)
    ensures Latest(s, second, end, i) <==>
            FinalIn(s, second * 1000, if second * 1000 + 999 < end then second * 1000 + 999 else end, i)
  {
    forall k | 0 <= k < |s| { WithinSecond(s[k].at, second, end); }
  }

  /**
    A slot is of one second before the end, and shows the last reading of that second up to the end, if it is finite;
    slots before boot, or of seconds without a reading, are blank.
   */
  lemma SlotMeaning(s: seq<Sample>, end: nat, seconds: nat, j: nat)
    requires j <= seconds
    ensures var second := end / 1000 - (seconds - j); var slot := Slot(s, end, seconds, j);
            && (second < 0 ==> slot == None)
            && (second >= 0 ==>
                 && (forall i: nat :: i < |s| && Latest(s, second, end, i) ==>
                       slot == match s[i].value case Some(Finite(v)) => Some(v) case _ => None)
                 && ((forall i: nat :: i < |s| ==> !Latest(s, second, end, i)) ==> slot == None))
  {
    hide Latest, FinalIn;
    var second := end / 1000 - (seconds - j);
    if second >= 0 {
      var start := second * 1000;
      var stop := if start + 999 < end then start + 999 else end;
      forall i: nat ensures Latest(s, second, end, i) <==> FinalIn(s, start, stop, i) {
        LatestIsFinal(s, second, end, i);
      }
      forall i: nat | FinalIn(s, start, stop, i) ensures i < |s| && LastIn(s, start, stop) == Some(s[i]) {
        FinalIsLastIn(s, start, stop, i);
        FinalBounds(s, start, stop, i);
      }
      if LastIn(s, start, stop).Some? { var i := LastInIsFinal(s, start, stop); }
    }
  }

  lemma FinalBounds(s: seq<Sample>, start: nat, stop: nat, i: nat)
    requires FinalIn(s, start, stop, i)
    ensures i < |s|
  {
  }

  /** All samples up to the index, and none after it, are within the stop. */
  ghost predicate Boundary(s: seq<Sample>, index: nat, stop: nat) {
    && index <= |s|
    && (forall i :: 0 <= i < index ==> s[i].at <= stop)
    && (forall i :: index <= i < |s| ==> s[i].at > stop)
  }

  lemma {:induction false} LastInOutside(s: seq<Sample>, start: nat, stop: nat)
    requires forall i :: 0 <= i < |s| ==> s[i].at < start || s[i].at > stop
    ensures LastIn(s, start, stop) == None
  {
    if s == [] {
    } else {
      LastInOutside(s[..|s| - 1], start, stop);
    }
  }

  lemma {:induction false} LastInAppend(s: seq<Sample>, more: seq<Sample>, start: nat, stop: nat)
    requires forall i :: 0 <= i < |more| ==> more[i].at > stop
    ensures LastIn(s + more, start, stop) == LastIn(s, start, stop)
  {
    if more == [] {
      assert s + more == s;
    } else {
      assert (s + more)[..|s + more| - 1] == s + more[..|more| - 1];
      LastInAppend(s, more[..|more| - 1], start, stop);
    }
  }

  /** On sorted samples the last one within the stop decides the bucket. */
  lemma LastInBoundary(s: seq<Sample>, index: nat, start: nat, stop: nat)
    requires TimeSorted(s) && Boundary(s, index, stop)
    ensures LastIn(s, start, stop) ==
            if index > 0 && s[index - 1].at >= start then Some(s[index - 1]) else None
  {
    assert s == s[..index] + s[index..];
    LastInAppend(s[..index], s[index..], start, stop);
    if index == 0 || s[index - 1].at < start { LastInOutside(s[..index], start, stop); }
  }

  function StopOf(start: nat, end: nat): nat { if start + 999 < end then start + 999 else end }

  /** The sample before the index is what the slot shows, if it is inside the slot's second. */
  lemma Scanned(s: seq<Sample>, index: nat, end: nat, seconds: nat, j: nat)
    requires j <= seconds && end / 1000 >= seconds - j
    requires TimeSorted(s) && Boundary(s, index, StopOf((end / 1000 - (seconds - j)) * 1000, end))
    ensures (if index > 0 && s[index - 1].at >= (end / 1000 - (seconds - j)) * 1000 then FiniteOf(Some(s[index - 1]))
             else None)
            == Slot(s, end, seconds, j)
  {
    hide TimeSorted, Boundary, LastIn;
    var start := (end / 1000 - (seconds - j)) * 1000;
    BoundaryIndex(s, index, StopOf(start, end));
    LastInBoundary(s, index, start, StopOf(start, end));
  }

  lemma BoundaryIndex(s: seq<Sample>, index: nat, stop: nat)
    requires Boundary(s, index, stop)
    ensures index <= |s|
  {
  }

  /** Moving the index forward over the samples within the stop. */
  method Advance(s: seq<Sample>, from: nat, stop: nat) returns (index: nat)
    requires from <= |s| && forall i :: 0 <= i < from ==> s[i].at <= stop
    ensures index <= |s| && forall i :: 0 <= i < index ==> s[i].at <= stop
    ensures TimeSorted(s) ==> Boundary(s, index, stop)
  {
    index := from;
    while index < |s| && s[index].at <= stop
      invariant index <= |s|
      invariant forall i :: 0 <= i < index ==> s[i].at <= stop
    {
      index := index + 1;
    }
  }

  /** One pass: the index only moves forward. */
  method Window(s: seq<Sample>, end: nat, seconds: nat) returns (out: seq<Option<real>>)
    ensures |out| == seconds + 1
    ensures TimeSorted(s) ==> forall j :: 0 <= j <= seconds ==> out[j] == Slot(s, end, seconds, j)
  {
    hide TimeSorted, Boundary, Bucket, FiniteOf;
    var lastSecond := end / 1000;
    var index: nat := 0;
    out := [];
    ghost var reached := 0;
    for j := 0 to seconds + 1
      invariant index <= |s| && |out| == j
      invariant TimeSorted(s) ==> forall i :: 0 <= i < j ==> out[i] == Slot(s, end, seconds, i)
      invariant forall i :: 0 <= i < index ==> s[i].at < reached
      invariant j == 0 || lastSecond < seconds - (j - 1) ==> reached == 0
      invariant j <= seconds && lastSecond >= seconds - j ==> reached <= (lastSecond - (seconds - j)) * 1000
    {
      var offset := seconds - j;
      if lastSecond < offset {
        out := out + [None];
        continue;
      }
      var start := (lastSecond - offset) * 1000;
      index := Advance(s, index, StopOf(start, end));
      if TimeSorted(s) { Scanned(s, index, end, seconds, j); }
      out := out + [if index > 0 && s[index - 1].at >= start then FiniteOf(Some(s[index - 1])) else None];
      reached := start + 1000;
    }
  }

  // ---- Completed slots never move ----

  lemma {:induction false} LastInPrepend(gone: seq<Sample>, s: seq<Sample>, start: nat, stop: nat)
    requires forall i :: 0 <= i < |gone| ==> gone[i].at < start
    ensures LastIn(gone + s, start, stop) == LastIn(s, start, stop)
  {
    if s == [] {
      assert gone + s == gone;
      LastInOutside(gone, start, stop);
    } else {
      assert (gone + s)[..|gone + s| - 1] == gone + s[..|s| - 1];
      LastInPrepend(gone, s[..|s| - 1], start, stop);
    }
  }

  lemma CompletedBucket(gone: seq<Sample>, s: seq<Sample>, more: seq<Sample>, second: nat, end: nat, later: nat)
    requires second < end / 1000 <= later / 1000
    requires forall i :: 0 <= i < |more| ==> more[i].at >= end / 1000 * 1000
    requires forall i :: 0 <= i < |gone| ==> gone[i].at < second * 1000
    ensures Bucket(s + more, second, later) == Bucket(gone + s, second, end)
  {
    assert second * 1000 + 999 < end / 1000 * 1000;
    LastInAppend(s, more, second * 1000, second * 1000 + 999);
    LastInPrepend(gone, s, second * 1000, second * 1000 + 999);
  }

  /**
    A later refresh, with whatever was collected from the current second on and without the oldest samples the series
    gave up since, shows every completed second that starts after those unchanged, moved left by the seconds passed.
   */
  lemma CompletedSlotsShift(gone: seq<Sample>, s: seq<Sample>, more: seq<Sample>, end: nat, later: nat, seconds: nat,
                            j: nat)
    requires end / 1000 <= later / 1000 && later / 1000 - end / 1000 <= j < seconds
    requires forall i :: 0 <= i < |more| ==> more[i].at >= end / 1000 * 1000
    requires end / 1000 >= seconds - j ==>
               forall i :: 0 <= i < |gone| ==> gone[i].at < (end / 1000 - (seconds - j)) * 1000
    ensures var shift := later / 1000 - end / 1000;
            Slot(s + more, later, seconds, j - shift) == Slot(gone + s, end, seconds, j)
  {
    if end / 1000 >= seconds - j {
      CompletedBucket(gone, s, more, end / 1000 - (seconds - j), end, later);
    }
  }
}
