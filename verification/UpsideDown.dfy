/**
  Upside-down ranges, which no accepted request holds: exactly when the normal form of a list absorbs them, and so
  when the list still compares as the set of its CPUs.
 */
module UpsideDown {
  import opened Wrappers
  import opened Text
  import opened CpuSets

  // ---- Sorted by both ends ----

  predicate LexSorted(s: seq<Range>) { forall i, j :: 0 <= i < j < |s| ==> !RangeBefore(s[j], s[i]) }

  lemma ConsSorted(r: Range, s: seq<Range>)
    requires LexSorted(s) && forall j :: 0 <= j < |s| ==> !RangeBefore(s[j], r)
    ensures LexSorted([r] + s)
  {
  }

  lemma {:induction false} PlaceSorted(r: Range, s: seq<Range>)
    requires LexSorted(s)
    ensures LexSorted(Ordering.Place(RangeBefore, r, s))
    ensures forall q: Range :: !RangeBefore(r, q) && (s != [] ==> !RangeBefore(s[0], q)) ==>
              forall j :: 0 <= j < |s| + 1 ==> !RangeBefore(Ordering.Place(RangeBefore, r, s)[j], q)
  {
    if s != [] && RangeBefore(s[0], r) {
      PlaceSorted(r, s[1..]);
      ConsSorted(s[0], Ordering.Place(RangeBefore, r, s[1..]));
    } else {
      ConsSorted(r, s);
    }
  }

  lemma {:induction false} SortSorted(ranges: seq<Range>)
    ensures LexSorted(Ordering.Sort(RangeBefore, ranges))
  {
    if ranges == [] {
    } else {
      SortSorted(ranges[1..]);
      PlaceSorted(ranges[0], Ordering.Sort(RangeBefore, ranges[1..]));
    }
  }

  // ---- What merging keeps, upside down or not ----

  /** Each merged range ends with a gap before the next. */
  predicate Spread(m: seq<Range>) {
    && (forall i, j :: 0 <= i < j < |m| ==> m[i].0 <= m[j].0)
    && (forall i, j :: 0 <= i < j < |m| ==> m[i].1 + 1 < m[j].0)
  }

  lemma JoinedSpread(m: seq<Range>, r: Range)
    requires Spread(m) && Bounded(m) && r.0 <= MAX_U32 && (m != [] ==> Last(m).0 <= r.0)
    ensures Spread(Joined(m, r))
  {
  }

  lemma {:induction false} MergedSpread(ranges: seq<Range>)
    requires Rising(ranges) && Bounded(ranges)
    ensures Spread(Merged(ranges))
  {
    hide Joined, Spread;
    if ranges == [] {
      NothingSpread();
    } else {
      MergedSpread(ranges[..|ranges| - 1]);
      MergedFrame(ranges[..|ranges| - 1]);
      JoinedSpread(Merged(ranges[..|ranges| - 1]), Last(ranges));
    }
  }

  lemma NothingSpread()
    ensures Spread(Merged([]))
  {
  }

  /** Range e takes up range r: it reaches as far, and starts with it or reaches it from below. */
  predicate TakesUp(e: Range, r: Range) { e.1 >= r.1 && (e.0 == r.0 || e.0 < r.0 <= e.1 + 1) }

  lemma JoinedTakesUp(m: seq<Range>, r: Range)
    requires m != [] ==> Last(m).0 <= r.0
    requires Bounded(m) && r.0 <= MAX_U32
    ensures var j := Joined(m, r);
            && |m| <= |j| && j != [] && TakesUp(Last(j), r)
            && forall i :: 0 <= i < |m| ==> j[i].0 == m[i].0 && j[i].1 >= m[i].1
  {
  }

  /** Every range is taken up by a merged one. */
  lemma {:induction false} TakenUp(ranges: seq<Range>, k: nat) returns (e: nat)
    requires Rising(ranges) && Bounded(ranges) && k < |ranges|
    ensures e < |Merged(ranges)| && TakesUp(Merged(ranges)[e], ranges[k])
  {
    hide Joined;
    var before := ranges[..|ranges| - 1];
    MergedFrame(before);
    JoinedTakesUp(Merged(before), Last(ranges));
    if k == |ranges| - 1 {
      e := |Merged(ranges)| - 1;
    } else {
      e := TakenUp(before, k);
    }
  }

  lemma JoinedOrigin(m: seq<Range>, r: Range, e: nat)
    requires e < |Joined(m, r)|
    ensures if e < |m| then Joined(m, r)[e].0 == m[e].0 && Joined(m, r)[e].1 >= m[e].1 else Joined(m, r)[e] == r
  {
  }

  /** Every merged range starts with one of the list. */
  lemma {:induction false} StartsWithOne(ranges: seq<Range>, e: nat) returns (k: nat)
    requires e < |Merged(ranges)|
    ensures k < |ranges| && ranges[k].0 == Merged(ranges)[e].0 && ranges[k].1 <= Merged(ranges)[e].1
  {
    hide Joined;
    var before := ranges[..|ranges| - 1];
    JoinedOrigin(Merged(before), Last(ranges), e);
    if e < |Merged(before)| {
      k := StartsWithOne(before, e);
    } else {
      k := |ranges| - 1;
    }
  }

  lemma LexRises(ranges: seq<Range>)
    requires LexSorted(ranges)
    ensures Rising(ranges)
  {
  }

  /** The last merged range is the last range itself, or started below it. */
  lemma {:induction false} LastMerged(ranges: seq<Range>)
    requires LexSorted(ranges) && Bounded(ranges) && ranges != []
    ensures var m := Merged(ranges);
            m != [] && Last(m).0 <= Last(ranges).0 && (Last(m).0 == Last(ranges).0 ==> Last(m).1 == Last(ranges).1)
  {
    var before := ranges[..|ranges| - 1];
    if before == [] {
    } else {
      LastMerged(before);
      assert !RangeBefore(ranges[|ranges| - 1], ranges[|ranges| - 2]);
    }
  }

  /** More than one below its own start: nothing that comes later can join it. */
  predicate Deep(r: Range) { r.1 + 1 < r.0 }

  lemma JoinedDeep(m: seq<Range>, r: Range, e: nat)
    requires e < |m| && Deep(m[e]) && (m != [] ==> Last(m).0 <= r.0) && Bounded(m)
    ensures e < |Joined(m, r)| && Deep(Joined(m, r)[e])
  {
  }

  lemma {:induction false} DeepStays(ranges: seq<Range>, k: nat) returns (e: nat)
    requires LexSorted(ranges) && Bounded(ranges) && k < |ranges| && Deep(ranges[k]) && !In(ranges, ranges[k].0 - 1)
    ensures e < |Merged(ranges)| && Deep(Merged(ranges)[e])
  {
    hide Joined, Deep;
    var before, last := ranges[..|ranges| - 1], Last(ranges);
    LexRises(ranges);
    MergedFrame(before);
    DeepStart(ranges[k]);
    InLast(ranges, ranges[k].0 - 1);
    if k < |ranges| - 1 {
      e := DeepStays(before, k);
      JoinedDeep(Merged(before), last, e);
    } else {
      DeepPushed(before, last);
      e := |Merged(ranges)| - 1;
    }
  }

  lemma InAt(m: seq<Range>, e: nat, x: nat)
    requires e < |m|
    ensures m[e].0 <= x <= m[e].1 ==> In(m, x)
  {
  }

  lemma DeepStart(r: Range)
    requires Deep(r)
    ensures r.0 >= 1
  {
  }

  lemma DeepPushed(before: seq<Range>, r: Range)
    requires LexSorted(before + [r]) && Bounded(before + [r]) && Deep(r) && !In(before, r.0 - 1)
    ensures Joined(Merged(before), r) == Merged(before) + [r]
  {
    if before != [] {
      var m := Merged(before);
      assert before == (before + [r])[..|before|];
      assert LexSorted(before) && Bounded(before);
      assert !RangeBefore((before + [r])[|before|], (before + [r])[|before| - 1]);
      LexRises(before);
      LastMerged(before);
      MergedMeaning(before, r.0 - 1);
      InAt(m, |m| - 1, r.0 - 1);
      hide Merged, LexSorted, Bounded, In;
    }
  }

  // ---- Exactly when upside-down ranges are absorbed ----

  /** An upside-down range that no other range of the list reaches. */
  ghost predicate Stands(ranges: seq<Range>, r: Range) {
    r.1 < r.0 && !In(ranges, r.0 - 1) && (r.1 + 1 < r.0 || !In(ranges, r.0))
  }

  /** Every upside-down range has the CPU before its start in the list, or ends there and has its start in the list. */
  ghost predicate Absorbed(ranges: seq<Range>) { forall r :: r in ranges ==> !Stands(ranges, r) }

  lemma StandingSurvives(ranges: seq<Range>, k: nat)
    requires LexSorted(ranges) && Bounded(ranges) && k < |ranges| && Stands(ranges, ranges[k])
    ensures !WellFormed(Merged(ranges))
  {
    var m, r := Merged(ranges), ranges[k];
    LexRises(ranges);
    if r.1 + 1 < r.0 {
      var e := DeepStays(ranges, k);
      assert m[e].1 < m[e].0;
    } else {
      var e := TakenUp(ranges, k);
      MergedMeaning(ranges, r.0 - 1);
      MergedMeaning(ranges, r.0);
      InAt(m, e, r.0 - 1);
      InAt(m, e, r.0);
      hide Merged, LexSorted, Bounded, In;
    }
  }

  lemma SurvivorStands(ranges: seq<Range>, e: nat) returns (k: nat)
    requires LexSorted(ranges) && Bounded(ranges) && e < |Merged(ranges)| && Merged(ranges)[e].1 < Merged(ranges)[e].0
    ensures k < |ranges| && Stands(ranges, ranges[k])
  {
    var m := Merged(ranges);
    LexRises(ranges);
    k := StartsWithOne(ranges, e);
    MergedSpread(ranges);
    MergedMeaning(ranges, m[e].0 - 1);
    MergedMeaning(ranges, m[e].0);
    hide Merged, LexSorted, Bounded;
    NotReached(m, e);
  }

  lemma NotReached(m: seq<Range>, e: nat)
    requires Spread(m) && e < |m| && m[e].1 < m[e].0
    ensures !In(m, m[e].0 - 1) && (m[e].1 + 1 == m[e].0 ==> !In(m, m[e].0))
  {
  }

  /** The normal form of a list is well-formed if and only if its upside-down ranges are absorbed. */
  lemma NormalWellFormedIff(ranges: seq<Range>)
    requires Bounded(ranges)
    ensures WellFormed(Normal(ranges)) <==> Absorbed(ranges)
  {
    var s := Ordering.Sort(RangeBefore, ranges);
    SortSorted(ranges);
    MembersSame(s, ranges);
    forall x: nat ensures In(s, x) <==> In(ranges, x) { SortKeeps(ranges, x); }
    SortKeeps(ranges, 0);
    LexRises(s);
    MergedFrame(s);
    hide LexSorted, Merged, In;
    if r :| r in ranges && Stands(ranges, r) {
      var k :| 0 <= k < |s| && s[k] == r;
      StandingSurvives(s, k);
    }
    if !WellFormed(Merged(s)) {
      BoundedIllFormed(Merged(s));
      var e :| 0 <= e < |Merged(s)| && Merged(s)[e].1 < Merged(s)[e].0;
      var k := SurvivorStands(s, e);
      assert s[k] in s;
    }
  }

  lemma BoundedIllFormed(m: seq<Range>)
    requires Bounded(m) && !WellFormed(m)
    ensures exists e :: 0 <= e < |m| && m[e].1 < m[e].0
  {
  }

  // ---- Comparing as a set ----

  /** The list is equivalent to a well-formed list exactly if the two hold the same CPUs. */
  ghost predicate ComparesAsSet(ranges: seq<Range>) {
    forall b: seq<Range> :: WellFormed(b) ==> (Normal(ranges) == Normal(b) <==> SameCpus(ranges, b))
  }

  lemma SpreadGapped(m: seq<Range>)
    requires Spread(m) && WellFormed(m)
    ensures Gapped(m)
  {
  }

  lemma NormalSpread(ranges: seq<Range>)
    requires Bounded(ranges)
    ensures Spread(Normal(ranges))
  {
    hide Spread, Rising, Bounded;
    SortKeeps(ranges, 0);
    SortRises(ranges);
    MergedSpread(Ordering.Sort(RangeBefore, ranges));
  }

  /** The ranges that are the right way up: a well-formed list of the same CPUs. */
  function Upright(ranges: seq<Range>): (r: seq<Range>)
    ensures forall i :: 0 <= i < |r| ==> r[i].0 <= r[i].1 && r[i] in ranges
  {
    if ranges == [] then []
    else
      var last := ranges[|ranges| - 1];
      Upright(ranges[..|ranges| - 1]) + if last.0 <= last.1 then [last] else []
  }

  lemma {:induction false} UprightSame(ranges: seq<Range>, x: nat)
    ensures In(Upright(ranges), x) <==> In(ranges, x)
  {
    if ranges == [] {
    } else {
      var before, last := ranges[..|ranges| - 1], Last(ranges);
      UprightSame(before, x);
      InLast(ranges, x);
      InSnoc(Upright(before), last, x);
      assert Upright(before) + [] == Upright(before);
    }
  }

  /** A list compares as the set of its CPUs if and only if its upside-down ranges are absorbed. */
  lemma ComparesAsSetIff(ranges: seq<Range>)
    requires Bounded(ranges)
    ensures ComparesAsSet(ranges) <==> Absorbed(ranges)
  {
    hide Absorbed, Normal, In;
    NormalWellFormedIff(ranges);
    if Absorbed(ranges) {
      forall b: seq<Range> | WellFormed(b) ensures Normal(ranges) == Normal(b) <==> SameCpus(ranges, b) {
        SettledIff(ranges, b);
      }
    }
    if ComparesAsSet(ranges) {
      var b := Upright(ranges);
      forall i | 0 <= i < |b| ensures b[i].1 <= MAX_U32 { assert b[i] in ranges; }
      forall x: nat ensures In(ranges, x) <==> In(b, x) { UprightSame(ranges, x); }
      NormalGapped(b);
    }
  }

  lemma SettledIff(a: seq<Range>, b: seq<Range>)
    requires Bounded(a) && WellFormed(Normal(a)) && WellFormed(b)
    ensures Normal(a) == Normal(b) <==> SameCpus(a, b)
  {
    hide Normal, In, Gapped, Spread;
    if Normal(a) == Normal(b) { NormalSound(a, b); }
    if SameCpus(a, b) {
      NormalSpread(a);
      SpreadGapped(Normal(a));
      NormalGapped(b);
      forall x: nat ensures In(Normal(a), x) <==> In(Normal(b), x) {
        NormalMeaning(a, x);
        NormalMeaning(b, x);
      }
      Canonical(Normal(a), Normal(b));
    }
  }

  // ---- As text ----

  lemma DigitOne(c: char)
    requires '0' <= c <= '9'
    ensures ParseU32([c], 10) == Some((c as int) - ('0' as int))
  {
    assert [c][..0] == [];
    assert Digits([c], 10) == Some((c as int) - ('0' as int));
  }

  lemma OneRange(lo: char, hi: char)
    requires '0' <= lo <= '9' && '0' <= hi <= '9'
    ensures ParseList([lo, '-', hi]) == Some([((lo as int) - ('0' as int), (hi as int) - ('0' as int))])
  {
    var s := [lo, '-', hi];
    TrimTrimmed(s);
    SplitWhole(s, ',');
    SplitWhole([lo], '-');
    SplitWhole([hi], '-');
    SplitJoined([lo], '-', [hi]);
    assert [lo] + ['-'] + [hi] == s;
    DigitOne(lo);
    DigitOne(hi);
    hide Split, ParseU32, Trim;
    var none: seq<string> := [];
    assert [s][1..] == none;
    var r: Range := ((lo as int) - ('0' as int), (hi as int) - ('0' as int));
    assert ParseRange(s) == Some(r);
    assert ParseRanges(none) == Some([]) && ParseRanges([s]) == Some([r] + []);
    assert [r] + [] == [r];
  }

  /** As written: two lists of no CPU that are not equivalent. */
  lemma UpsideDownDiffers()
    ensures ParseList("1-0").Some? && ParseList("3-2").Some?
    ensures SameCpus(ParseList("1-0").value, ParseList("3-2").value) && !EquivalentLists("1-0", "3-2")
  {
    hide ParseList, Normal;
    OneRange('1', '0');
    OneRange('3', '2');
    NormalSingle((1, 0));
    NormalSingle((3, 2));
  }

  lemma NormalSingle(r: Range)
    ensures Normal([r]) == [r]
  {
    assert [r][1..] == [] && [r][..0] == [];
    assert Ordering.Sort(RangeBefore, [r]) == [r];
    assert Merged([r]) == Joined(Merged([]), r);
  }
}
