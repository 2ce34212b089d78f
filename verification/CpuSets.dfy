/** CPU lists and CPU masks as text, and when two of them mean the same CPUs. */
module CpuSets {
  import opened Wrappers
  import opened Numbers
  import opened Text
  import Ordering

  /** A range of CPUs with both ends, as written: it may be upside down. */
  type Range = (nat, nat)

  predicate RangeBefore(a: Range, b: Range) { a.0 < b.0 || (a.0 == b.0 && a.1 < b.1) }

  /** A part of a list: one CPU or a range; whatever follows a second dash is not looked at. */
  function ParseRange(part: string): Option<Range> {
    var bounds := Split(part, '-');
    var lo := ParseU32(bounds[0], 10);
    var hi := if |bounds| > 1 then ParseU32(bounds[1], 10) else lo;
    if lo.Some? && hi.Some? then Some((lo.value, hi.value)) else None
  }

  function ParseRanges(parts: seq<string>): Option<seq<Range>> {
    if parts == [] then Some([])
    else
      var r, rest := ParseRange(parts[0]), ParseRanges(parts[1..]);
      if r.Some? && rest.Some? then Some([r.value] + rest.value) else None
  }

  /** A CPU list; blank text is the empty list. */
  function ParseList(s: string): Option<seq<Range>> {
    if Trim(s) == "" then Some([]) else ParseRanges(Split(Trim(s), ','))
  }

  function SaturatingSucc(n: nat): nat { if n >= MAX_U32 then MAX_U32 else n + 1 }

  /** The next range extends the last merged one if it touches it. */
  function Joined(merged: seq<Range>, r: Range): seq<Range> {
    if merged != [] && r.0 <= SaturatingSucc(Last(merged).1)
    then merged[..|merged| - 1] + [(Last(merged).0, Max(Last(merged).1, r.1))]
    else merged + [r]
  }

  function Merged(ranges: seq<Range>): seq<Range> {
    if ranges == [] then [] else Joined(Merged(ranges[..|ranges| - 1]), ranges[|ranges| - 1])
  }

  function Normal(ranges: seq<Range>): seq<Range> { Merged(Ordering.Sort(RangeBefore, ranges)) }

  /** The normaliser of `equivalent`: parse, sort, merge. */
  method Normalize(s: string) returns (r: Option<seq<Range>>)
    ensures r == if ParseList(s).None? then None else Some(Normal(ParseList(s).value))
  {
    var parsed := ParseList(s);
    if parsed.None? { return None; }
    var ranges := Ordering.Sort(RangeBefore, parsed.value);
    var merged: seq<Range> := [];
    var i := 0;
    while i < |ranges|
      invariant i <= |ranges| && merged == Merged(ranges[..i])
    {
      var (lo, hi) := ranges[i];
      assert ranges[..i + 1][..i] == ranges[..i];
      if |merged| > 0 && lo <= SaturatingSucc(merged[|merged| - 1].1) {
        var last := merged[|merged| - 1];
        merged := merged[..|merged| - 1] + [(last.0, Max(last.1, hi))];
      } else {
        merged := merged + [(lo, hi)];
      }
      i := i + 1;
    }
    assert ranges[..i] == ranges;
    r := Some(merged);
  }

  // ---- What a list denotes ----

  ghost predicate In(ranges: seq<Range>, x: nat) { exists i :: 0 <= i < |ranges| && ranges[i].0 <= x <= ranges[i].1 }

  ghost predicate SameCpus(a: seq<Range>, b: seq<Range>) { forall x: nat :: In(a, x) <==> In(b, x) }

  predicate WellFormed(ranges: seq<Range>) { forall i :: 0 <= i < |ranges| ==> ranges[i].0 <= ranges[i].1 <= MAX_U32 }

  /** Sorted by their lower ends. */
  predicate Rising(ranges: seq<Range>) { forall i, j :: 0 <= i < j < |ranges| ==> ranges[i].0 <= ranges[j].0 }

  predicate Bounded(ranges: seq<Range>) {
    forall i :: 0 <= i < |ranges| ==> ranges[i].0 <= MAX_U32 && ranges[i].1 <= MAX_U32
  }

  lemma InSnoc(ranges: seq<Range>, r: Range, x: nat)
    ensures In(ranges + [r], x) <==> In(ranges, x) || r.0 <= x <= r.1
  {
    var s := ranges + [r];
    if In(ranges, x) {
      var i :| 0 <= i < |ranges| && ranges[i].0 <= x <= ranges[i].1;
      assert s[i] == ranges[i];
    }
    if r.0 <= x <= r.1 { assert s[|ranges|] == r; }
  }

  lemma InLast(ranges: seq<Range>, x: nat)
    requires ranges != []
    ensures In(ranges, x) <==> In(ranges[..|ranges| - 1], x) || Last(ranges).0 <= x <= Last(ranges).1
  {
    InSnoc(ranges[..|ranges| - 1], Last(ranges), x);
    assert ranges == ranges[..|ranges| - 1] + [Last(ranges)];
  }

  /** Joining a range that starts no lower than the last one adds exactly its CPUs, upside down or not. */
  lemma JoinedMeaning(m: seq<Range>, r: Range, x: nat)
    requires m != [] ==> Last(m).0 <= r.0 && Last(m).1 <= MAX_U32
    requires r.0 <= MAX_U32
    ensures In(Joined(m, r), x) <==> In(m, x) || r.0 <= x <= r.1
  {
    if m != [] && r.0 <= SaturatingSucc(Last(m).1) {
      InLast(m, x);
      InSnoc(m[..|m| - 1], (Last(m).0, Max(Last(m).1, r.1)), x);
    } else {
      InSnoc(m, r, x);
    }
  }

  lemma JoinedFrame(m: seq<Range>, r: Range)
    requires Bounded(m) && r.0 <= MAX_U32 && r.1 <= MAX_U32 && (m != [] ==> Last(m).0 <= r.0)
    ensures Bounded(Joined(m, r)) && Joined(m, r) != [] && Last(Joined(m, r)).0 <= r.0
  {
  }

  lemma {:induction false} MergedFrame(ranges: seq<Range>)
    requires Rising(ranges) && Bounded(ranges)
    ensures ranges != [] ==> Merged(ranges) != [] && Last(Merged(ranges)).0 <= Last(ranges).0
    ensures Bounded(Merged(ranges))
  {
    hide Joined;
    if ranges == [] {
    } else {
      MergedFrame(ranges[..|ranges| - 1]);
      JoinedFrame(Merged(ranges[..|ranges| - 1]), Last(ranges));
    }
  }

  lemma {:induction false} MergedMeaning(ranges: seq<Range>, x: nat)
    requires Rising(ranges) && Bounded(ranges)
    ensures In(Merged(ranges), x) <==> In(ranges, x)
  {
    hide Joined;
    if ranges != [] {
      var before := ranges[..|ranges| - 1];
      MergedMeaning(before, x);
      MergedFrame(before);
      InLast(ranges, x);
      JoinedMeaning(Merged(before), Last(ranges), x);
    } else {
      NothingIn(x);
    }
  }

  lemma NothingIn(x: nat)
    ensures !In([], x) && !In(Merged([]), x)
  {
  }

  lemma ConsRises(r: Range, s: seq<Range>)
    requires Rising(s) && forall j :: 0 <= j < |s| ==> r.0 <= s[j].0
    ensures Rising([r] + s)
  {
  }

  lemma {:induction false} PlaceRises(r: Range, s: seq<Range>)
    requires Rising(s)
    ensures Rising(Ordering.Place(RangeBefore, r, s))
    ensures forall j :: 0 <= j < |s| + 1 ==>
            Ordering.Place(RangeBefore, r, s)[j].0 >= if s == [] || r.0 <= s[0].0 then r.0 else s[0].0
  {
    if s != [] && RangeBefore(s[0], r) {
      PlaceRises(r, s[1..]);
      ConsRises(s[0], Ordering.Place(RangeBefore, r, s[1..]));
    } else {
      ConsRises(r, s);
    }
  }

  lemma {:induction false} SortRises(ranges: seq<Range>)
    ensures Rising(Ordering.Sort(RangeBefore, ranges))
  {
    if ranges == [] {
    } else {
      SortRises(ranges[1..]);
      PlaceRises(ranges[0], Ordering.Sort(RangeBefore, ranges[1..]));
    }
  }

  lemma MembersSame(a: seq<Range>, b: seq<Range>)
    requires multiset(a) == multiset(b)
    ensures forall r :: r in a <==> r in b
  {
    forall r ensures r in a <==> r in b { assert r in multiset(a) <==> r in multiset(b); }
  }

  lemma InMember(ranges: seq<Range>, x: nat)
    ensures In(ranges, x) <==> exists r :: r in ranges && r.0 <= x <= r.1
  {
  }

  lemma SortKeeps(ranges: seq<Range>, x: nat)
    ensures var s := Ordering.Sort(RangeBefore, ranges);
            && (In(s, x) <==> In(ranges, x))
            && (WellFormed(ranges) ==> WellFormed(s))
            && (Bounded(ranges) ==> Bounded(s))
  {
    var s := Ordering.Sort(RangeBefore, ranges);
    MembersSame(s, ranges);
    InMember(s, x);
    InMember(ranges, x);
    forall i | 0 <= i < |s| ensures s[i] in ranges { assert s[i] in s; }
  }

  /** The normal form denotes the same CPUs as the list, whatever the list. */
  lemma NormalMeaning(ranges: seq<Range>, x: nat)
    requires Bounded(ranges)
    ensures In(Normal(ranges), x) <==> In(ranges, x)
  {
    hide In, Rising, Bounded, WellFormed;
    SortKeeps(ranges, x);
    SortRises(ranges);
    MergedMeaning(Ordering.Sort(RangeBefore, ranges), x);
  }

  // ---- Normal forms are canonical ----

  /** Ranges the right way up with a gap before each next one. */
  predicate Gapped(m: seq<Range>) {
    && WellFormed(m)
    && forall i, j :: 0 <= i < j < |m| ==> m[i].1 + 1 < m[j].0
  }

  lemma JoinedGapped(m: seq<Range>, r: Range)
    requires Gapped(m) && r.0 <= r.1 <= MAX_U32 && (m != [] ==> Last(m).0 <= r.0)
    ensures Gapped(Joined(m, r))
  {
  }

  lemma {:induction false} MergedGapped(ranges: seq<Range>)
    requires Rising(ranges) && WellFormed(ranges)
    ensures Gapped(Merged(ranges))
  {
    hide Joined, Gapped;
    if ranges != [] {
      var before := ranges[..|ranges| - 1];
      MergedGapped(before);
      MergedFrame(before);
      JoinedGapped(Merged(before), Last(ranges));
    } else {
      NothingGapped();
    }
  }

  lemma NothingGapped()
    ensures Gapped(Merged([]))
  {
  }

  lemma GappedTail(m: seq<Range>, x: nat)
    requires Gapped(m) && m != []
    ensures Gapped(m[1..])
    ensures In(m[1..], x) <==> In(m, x) && x > m[0].1
    ensures In(m, x) ==> x >= m[0].0
    ensures In(m, m[0].0) && In(m, m[0].1) && (m[0].0 <= x <= m[0].1 ==> In(m, x)) && !In(m, m[0].1 + 1)
  {
    if In(m, x) {
      var i :| 0 <= i < |m| && m[i].0 <= x <= m[i].1;
      if i > 0 { assert m[1..][i - 1] == m[i]; }
    }
    if In(m[1..], x) {
      var i :| 0 <= i < |m[1..]| && m[1..][i].0 <= x <= m[1..][i].1;
      assert m[i + 1] == m[1..][i];
    }
  }

  lemma FirstLow(a: seq<Range>, b: seq<Range>)
    requires Gapped(a) && Gapped(b) && SameCpus(a, b) && a != [] && b != []
    ensures a[0].0 == b[0].0
  {
    hide Gapped, In;
    GappedTail(a, b[0].0);
    GappedTail(b, a[0].0);
  }

  lemma FirstHigh(a: seq<Range>, b: seq<Range>)
    requires Gapped(a) && Gapped(b) && SameCpus(a, b) && a != [] && b != [] && a[0].0 == b[0].0
    requires a[0].0 <= a[0].1
    ensures a[0].1 >= b[0].1
  {
    hide Gapped, In;
    GappedTail(a, a[0].1 + 1);
    GappedTail(b, a[0].1 + 1);
  }

  lemma {:induction false} Canonical(a: seq<Range>, b: seq<Range>)
    requires Gapped(a) && Gapped(b) && SameCpus(a, b)
    ensures a == b
  {
    if a == [] || b == [] {
      if a != [] { GappedTail(a, 0); }
      if b != [] { GappedTail(b, 0); }
    } else {
      FirstLow(a, b);
      FirstHigh(a, b);
      FirstHigh(b, a);
      forall x: nat ensures In(a[1..], x) <==> In(b[1..], x) {
        GappedTail(a, x);
        GappedTail(b, x);
      }
      Canonical(a[1..], b[1..]);
      assert a == [a[0]] + a[1..] && b == [b[0]] + b[1..];
    }
  }

  lemma NormalGapped(ranges: seq<Range>)
    requires WellFormed(ranges)
    ensures Gapped(Normal(ranges))
  {
    hide Gapped, Rising, WellFormed;
    SortKeeps(ranges, 0);
    SortRises(ranges);
    MergedGapped(Ordering.Sort(RangeBefore, ranges));
  }

  /** Equal normal forms denote equal CPU sets, for all lists. */
  lemma NormalSound(a: seq<Range>, b: seq<Range>)
    requires Bounded(a) && Bounded(b) && Normal(a) == Normal(b)
    ensures SameCpus(a, b)
  {
    hide Normal, In, Bounded;
    forall x: nat ensures In(a, x) <==> In(b, x) {
      NormalMeaning(a, x);
      NormalMeaning(b, x);
    }
  }

  /** For well-formed lists the normal forms are equal exactly when the CPU sets are. */
  lemma NormalIffSameCpus(a: seq<Range>, b: seq<Range>)
    requires WellFormed(a) && WellFormed(b)
    ensures Normal(a) == Normal(b) <==> SameCpus(a, b)
  {
    if Normal(a) == Normal(b) { NormalSound(a, b); }
    if SameCpus(a, b) {
      NormalGapped(a);
      NormalGapped(b);
      hide Normal, In, Gapped;
      forall x: nat ensures In(Normal(a), x) <==> In(Normal(b), x) {
        NormalMeaning(a, x);
        NormalMeaning(b, x);
      }
      Canonical(Normal(a), Normal(b));
    }
  }

  // ---- Effective values ----

  /** Targets whose text is a CPU list. */
  predicate ListTarget(path: string) {
    EndsWith(path, "smp_affinity_list") || EndsWith(path, "cpuset.cpus") || StartsWith(path, "task-affinity:")
  }

  /** Targets with a separate effective value. */
  predicate Constrained(path: string) {
    Last(Split(path, '/')) == "smp_affinity_list" || Last(Split(path, '/')) == "cpuset.cpus"
  }

  predicate EquivalentLists(a: string, b: string) {
    ParseList(a).Some? && ParseList(b).Some? && Normal(ParseList(a).value) == Normal(ParseList(b).value)
  }

  // ---- Masks ----

  /** The words of a mask, the highest first. */
  function ParseWords(parts: seq<string>): (r: Option<seq<nat>>)
    ensures r.Some? ==> |r.value| == |parts| && forall i :: 0 <= i < |parts| ==> r.value[i] <= MAX_U32
  {
    if parts == [] then Some([])
    else
      var w, rest := ParseU32(parts[0], 16), ParseWords(parts[1..]);
      if w.Some? && rest.Some? then Some([w.value] + rest.value) else None
  }

  function ParseMask(s: string): (r: Option<seq<nat>>)
    ensures r.Some? ==> r.value != [] && forall i :: 0 <= i < |r.value| ==> r.value[i] <= MAX_U32
  {
    ParseWords(Split(Trim(s), ','))
  }

  /** Leading zero words are dropped, but not the last word. */
  function Stripped(words: seq<nat>): seq<nat> {
    if |words| > 1 && words[0] == 0 then Stripped(words[1..]) else words
  }

  method NormalizeMask(s: string) returns (r: Option<seq<nat>>)
    ensures r == if ParseMask(s).None? then None else Some(Stripped(ParseMask(s).value))
  {
    var parsed := ParseMask(s);
    if parsed.None? { return None; }
    var words := parsed.value;
    while |words| > 1 && words[0] == 0
      invariant words != [] && Stripped(words) == Stripped(parsed.value)
      decreases |words|
    {
      words := words[1..];
    }
    r := Some(words);
  }

  predicate EquivalentMasks(a: string, b: string) {
    ParseMask(a).Some? && ParseMask(b).Some? && Stripped(ParseMask(a).value) == Stripped(ParseMask(b).value)
  }

  const WORD: nat := MAX_U32 + 1

  /** The number a list of words denotes in base 2^32. */
  function Number(words: seq<nat>): nat {
    if words == [] then 0 else Number(words[..|words| - 1]) * WORD + words[|words| - 1]
  }

  predicate Words(words: seq<nat>) { forall i :: 0 <= i < |words| ==> words[i] < WORD }

  lemma {:induction false} LeadingZero(words: seq<nat>)
    requires words != [] && words[0] == 0
    ensures Number(words[1..]) == Number(words)
  {
    if |words| > 1 {
      LeadingZero(words[..|words| - 1]);
      assert words[1..][..|words| - 2] == words[..|words| - 1][1..];
    } else {
      assert words[..0] == [];
    }
  }

  lemma {:induction false} StrippedNumber(words: seq<nat>)
    requires Words(words) && words != []
    ensures Number(Stripped(words)) == Number(words)
    ensures Words(Stripped(words)) && Stripped(words) != [] && (|Stripped(words)| > 1 ==> Stripped(words)[0] != 0)
  {
    if |words| > 1 && words[0] == 0 {
      LeadingZero(words);
      StrippedNumber(words[1..]);
    }
  }

  lemma DivideWord(q: nat, p: nat, x: nat, y: nat)
    requires x < WORD && y < WORD && q * WORD + x == p * WORD + y
    ensures q == p && x == y
  {
  }

  lemma {:induction false} Positive(words: seq<nat>)
    requires Words(words) && words != [] && words[0] != 0
    ensures Number(words) > 0
  {
    if |words| > 1 {
      Positive(words[..|words| - 1]);
    }
  }

  /** Words without leading zeros are determined by their number. */
  lemma {:induction false} NumberUnique(a: seq<nat>, b: seq<nat>)
    requires Words(a) && Words(b) && a != [] && b != []
    requires (|a| > 1 ==> a[0] != 0) && (|b| > 1 ==> b[0] != 0)
    requires Number(a) == Number(b)
    ensures a == b
    decreases |a|
  {
    var x, y := a[..|a| - 1], b[..|b| - 1];
    DivideWord(Number(x), Number(y), Last(a), Last(b));
    if |a| > 1 && |b| > 1 {
      NumberUnique(x, y);
      assert a == x + [Last(a)] && b == y + [Last(b)];
    } else if |a| > 1 {
      Positive(x);
    } else if |b| > 1 {
      Positive(y);
    }
  }

  /** Masks compare equal exactly when both parse and denote the same number. */
  lemma MasksIffSameNumber(a: string, b: string)
    ensures EquivalentMasks(a, b) <==>
            ParseMask(a).Some? && ParseMask(b).Some? && Number(ParseMask(a).value) == Number(ParseMask(b).value)
  {
    hide ParseMask, Stripped, Number;
    if ParseMask(a).Some? && ParseMask(b).Some? {
      StrippedNumber(ParseMask(a).value);
      StrippedNumber(ParseMask(b).value);
      if Number(ParseMask(a).value) == Number(ParseMask(b).value) {
        NumberUnique(Stripped(ParseMask(a).value), Stripped(ParseMask(b).value));
      }
    }
  }

  // ---- `equivalent` and `effective_allowed` ----

  /** Masks by number, CPU lists by set, anything else as trimmed text. */
  predicate Equivalent(path: string, a: string, b: string) {
    if EndsWith(path, "rps_cpus") then EquivalentMasks(a, b)
    else if ListTarget(path) then EquivalentLists(a, b)
    else Trim(a) == Trim(b)
  }

  method CheckEquivalent(path: string, a: string, b: string) returns (same: bool)
    ensures same == Equivalent(path, a, b)
  {
    if EndsWith(path, "rps_cpus") {
      var x := NormalizeMask(a);
      var y := NormalizeMask(b);
      return x.Some? && y.Some? && x == y;
    }
    if ListTarget(path) {
      var x := Normalize(a);
      var y := Normalize(b);
      return x.Some? && y.Some? && x == y;
    }
    same := Trim(a) == Trim(b);
  }

  /** Text that can be compared at all: a mask or list that parses, or any other text. */
  predicate Readable(path: string, v: string) {
    if EndsWith(path, "rps_cpus") then ParseMask(v).Some?
    else if ListTarget(path) then ParseList(v).Some?
    else true
  }

  /** White space at the ends means nothing: the same trimmed text is equivalent exactly if it is readable. */
  lemma SameTextEquivalent(path: string, a: string, b: string)
    requires Trim(a) == Trim(b)
    ensures Readable(path, a) == Readable(path, b)
    ensures Equivalent(path, a, b) <==> Readable(path, b)
  {
    hide Trim;
  }

  /** What the kernel may make of a request: for constrained targets something, and nothing beyond it. */
  predicate EffectiveAllowed(path: string, actual: string, requested: string) {
    if !Constrained(path) then true
    else if Trim(requested) == "" then Trim(actual) != ""
    else Trim(actual) != "" && Equivalent(path, Trim(requested) + "," + Trim(actual), requested)
  }

  lemma ConstrainedIsList(path: string)
    requires Constrained(path)
    ensures ListTarget(path) && !EndsWith(path, "rps_cpus")
  {
    SplitLast(path, '/');
    EndsAt(path, "smp_affinity_list", 0);
    EndsAt(path, "cpuset.cpus", 4);
    EndsAt(path, "rps_cpus", 0);
    EndsAt(path, "rps_cpus", 4);
  }

  lemma EndsAt(s: string, t: string, k: nat)
    requires k < |t|
    ensures EndsWith(s, t) ==> |s| >= |t| && s[|s| - 1 - k] == t[|t| - 1 - k]
  {
    if EndsWith(s, t) { assert s[|s| - |t|..][|t| - 1 - k] == t[|t| - 1 - k]; }
  }

  lemma {:induction false} RangesJoined(a: seq<string>, b: seq<string>)
    ensures ParseRanges(a + b) ==
            if ParseRanges(a).Some? && ParseRanges(b).Some? then Some(ParseRanges(a).value + ParseRanges(b).value)
            else None
  {
    if a == [] {
      assert a + b == b;
      if ParseRanges(b).Some? { assert [] + ParseRanges(b).value == ParseRanges(b).value; }
    } else {
      RangesJoined(a[1..], b);
      assert (a + b)[1..] == a[1..] + b;
      if ParseRanges(a).Some? && ParseRanges(b).Some? {
        assert ParseRanges(a).value + ParseRanges(b).value ==
               [ParseRange(a[0]).value] + (ParseRanges(a[1..]).value + ParseRanges(b).value);
      }
    }
  }

  /** Two non-blank lists joined by a comma parse to the ranges of both. */
  lemma ListsJoined(a: string, b: string)
    requires Trim(a) != "" && Trim(b) != ""
    ensures ParseList(Trim(a) + "," + Trim(b)) ==
            if ParseList(a).Some? && ParseList(b).Some? then Some(ParseList(a).value + ParseList(b).value) else None
  {
    hide Trim, Split, ParseRange, IsSpace;
    var x, y := Trim(a), Trim(b);
    TrimIsTrimmed(a);
    TrimIsTrimmed(b);
    assert x + [','] + y == x + "," + y;
    TrimTrimmed(x + "," + y);
    SplitJoined(x, ',', y);
    RangesJoined(Split(x, ','), Split(y, ','));
  }

  lemma InJoined(a: seq<Range>, b: seq<Range>, x: nat)
    ensures In(a + b, x) <==> In(a, x) || In(b, x)
  {
    var s := a + b;
    if In(a, x) {
      var i :| 0 <= i < |a| && a[i].0 <= x <= a[i].1;
      assert s[i] == a[i];
    }
    if In(b, x) {
      var i :| 0 <= i < |b| && b[i].0 <= x <= b[i].1;
      assert s[|a| + i] == b[i];
    }
  }

  ghost predicate Subset(a: seq<Range>, b: seq<Range>) { forall x: nat :: In(a, x) ==> In(b, x) }

  lemma SubsetIffJoined(a: seq<Range>, b: seq<Range>)
    ensures SameCpus(a + b, a) <==> Subset(b, a)
  {
    hide In;
    forall x: nat ensures In(a + b, x) <==> In(a, x) || In(b, x) { InJoined(a, b, x); }
  }

  /** A non-blank request is met exactly by a non-empty set of CPUs within it. */
  lemma EffectiveIffSubset(path: string, actual: string, requested: string)
    requires Constrained(path) && Trim(requested) != ""
    requires ParseList(requested).Some? && WellFormed(ParseList(requested).value)
    requires ParseList(actual).Some? && WellFormed(ParseList(actual).value)
    ensures EffectiveAllowed(path, actual, requested) <==>
            (exists x: nat :: In(ParseList(actual).value, x)) &&
            Subset(ParseList(actual).value, ParseList(requested).value)
  {
    var asked, got := ParseList(requested).value, ParseList(actual).value;
    ConstrainedIsList(path);
    NonBlank(actual);
    if Trim(actual) != "" {
      hide ParseList, Normal, In, Trim, Constrained;
      ListsJoined(requested, actual);
      NormalIffSameCpus(asked + got, asked);
      SubsetIffJoined(asked, got);
    }
  }

  lemma NonBlank(s: string)
    requires ParseList(s).Some? && WellFormed(ParseList(s).value)
    ensures Trim(s) != "" <==> exists x: nat :: In(ParseList(s).value, x)
  {
    hide Trim, Split, ParseRange;
    var r := ParseList(s).value;
    if Trim(s) != "" {
      assert r != [];
      assert In(r, r[0].0);
    }
  }

  /** A list that cannot be read is never an allowed effective value of a non-blank request. */
  lemma UnreadableRefused(path: string, actual: string, requested: string)
    requires Constrained(path) && Trim(requested) != ""
    requires ParseList(requested).None? || ParseList(actual).None?
    ensures !EffectiveAllowed(path, actual, requested)
  {
    hide ParseRanges, Trim, Constrained;
    ConstrainedIsList(path);
    if Trim(actual) != "" { ListsJoined(requested, actual); }
  }

  /** A request that is blank asks only for some CPUs. */
  lemma BlankRequest(path: string, actual: string, requested: string)
    requires Constrained(path) && Trim(requested) == "" && ParseList(actual).Some? &&
             WellFormed(ParseList(actual).value)
    ensures EffectiveAllowed(path, actual, requested) <==> exists x: nat :: In(ParseList(actual).value, x)
  {
    hide Constrained;
    NonBlank(actual);
  }

  // ---- `validate_cpus` ----

  /** The highest CPU number a request may name. */
  const MAX_CPU: nat := 1048575

  function ParseBounds(bounds: seq<string>): (r: Option<seq<nat>>)
    ensures r.Some? ==> |r.value| == |bounds|
  {
    if bounds == [] then Some([])
    else
      var b, rest := ParseU32(bounds[0], 10), ParseBounds(bounds[1..]);
      if b.Some? && rest.Some? then Some([b.value] + rest.value) else None
  }

  predicate ValidPart(part: string) {
    var b := ParseBounds(Split(part, '-'));
    && b.Some? && |b.value| <= 2
    && (|b.value| == 2 ==> b.value[0] <= b.value[1])
    && forall i :: 0 <= i < |b.value| ==> b.value[i] <= MAX_CPU
  }

  predicate ValidCpus(s: string) {
    s != "" && forall i :: 0 <= i < |Split(s, ',')| ==> ValidPart(Split(s, ',')[i])
  }

  lemma PartParses(part: string)
    requires ValidPart(part)
    ensures ParseRange(part).Some? && ParseRange(part).value.0 <= ParseRange(part).value.1 <= MAX_CPU
    ensures Trimmed(part)
  {
    hide Digits, IsSpace, ParseU32;
    var bounds := Split(part, '-');
    assert ParseBounds(bounds).value[0] == ParseU32(bounds[0], 10).value;
    NumberTrimmed(bounds[0], 10);
    if |bounds| == 2 {
      assert ParseBounds(bounds[1..]).value[0] == ParseU32(bounds[1], 10).value;
      NumberTrimmed(bounds[1], 10);
    }
    DashIsNoSpace();
    PartsTrimmed(part, '-');
  }

  lemma DashIsNoSpace()
    ensures !IsSpace('-') && !IsSpace(',')
  {
  }

  lemma {:induction false} PartsParse(parts: seq<string>)
    requires forall i :: 0 <= i < |parts| ==> ValidPart(parts[i])
    ensures ParseRanges(parts).Some? && |ParseRanges(parts).value| == |parts| && WellFormed(ParseRanges(parts).value)
  {
    hide ValidPart, ParseRange;
    if parts == [] {
    } else {
      PartParses(parts[0]);
      PartsParse(parts[1..]);
    }
  }

  /** Every request accepted by validation is a readable, well-formed list of at least one CPU. */
  lemma ValidatedIsWellFormed(s: string)
    requires ValidCpus(s)
    ensures ParseList(s).Some? && WellFormed(ParseList(s).value)
    ensures exists x: nat :: In(ParseList(s).value, x)
  {
    hide ValidPart, ParseRanges, IsSpace;
    var parts := Split(s, ',');
    assert ValidPart(parts[0]) && ValidPart(parts[|parts| - 1]);
    PartParses(parts[0]);
    PartParses(parts[|parts| - 1]);
    DashIsNoSpace();
    PartsTrimmed(s, ',');
    TrimTrimmed(s);
    PartsParse(parts);
    assert In(ParseList(s).value, ParseList(s).value[0].0);
  }
}
