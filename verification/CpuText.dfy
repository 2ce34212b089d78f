/** Writing CPU lists and masks out and reading them back: what the text of a control says about CPUs. */
module CpuText {
  import opened Wrappers
  import opened Text
  import opened CpuSets

  // ---- Numbers ----

  /** The character of a digit. */
  function Shown(d: nat): char
    requires d < 16
  {
    if d < 10 then '0' + d as char else 'a' + (d - 10) as char
  }

  /** The usual text of a number in a base, without leading zeros. */
  function Numeral(n: nat, base: nat): (s: string)
    requires 2 <= base <= 16
    ensures s != []
    decreases n
  {
    if n < base then [Shown(n)] else Numeral(n / base, base) + [Shown(n % base)]
  }

  /** A digit of a number, and no separator, sign or white space. */
  predicate Plain(c: char) { '0' <= c <= '9' || 'a' <= c <= 'f' }

  lemma PlainIsNothingElse(c: char)
    requires Plain(c)
    ensures c != ',' && c != '-' && c != '+' && !IsSpace(c)
  {
  }

  lemma ShownDigit(d: nat)
    requires d < 16
    ensures Digit(Shown(d)) == Some(d) && Plain(Shown(d))
  {
  }

  lemma {:induction false} NumeralPlain(n: nat, base: nat)
    requires 2 <= base <= 16
    ensures forall c :: c in Numeral(n, base) ==> Plain(c)
    decreases n
  {
    hide Plain;
    if n < base {
      ShownDigit(n);
    } else {
      NumeralPlain(n / base, base);
      ShownDigit(n % base);
    }
  }

  lemma {:induction false} NumeralValue(n: nat, base: nat)
    requires 2 <= base <= 16
    ensures Digits(Numeral(n, base), base) == Some(n)
    decreases n
  {
    hide Digit, Shown, Digits;
    if n < base {
      ShownDigit(n);
      DigitsSnoc([], Shown(n), base);
      assert [] + [Shown(n)] == [Shown(n)];
    } else {
      var q, r := n / base, n % base;
      Divided(n, base);
      NumeralValue(q, base);
      ShownDigit(r);
      assert Numeral(n, base) == Numeral(q, base) + [Shown(r)];
      hide Numeral;
      DigitsSnoc(Numeral(q, base), Shown(r), base);
    }
  }

  lemma Divided(n: nat, base: nat)
    requires base >= 2
    ensures n / base * base + n % base == n && (n >= base ==> n / base < n)
  {
  }

  lemma DigitsSnoc(s: string, c: char, base: nat)
    requires (s == [] || Digits(s, base).Some?) && Digit(c).Some? && Digit(c).value < base
    ensures Digits(s, base).Some?
    ensures Digits(s + [c], base) == Some(Digits(s, base).value * base + Digit(c).value)
    ensures s == [] ==> Digits(s + [c], base) == Digit(c)
  {
    assert (s + [c])[..|s|] == s;
  }

  /** A number written out reads back, in any base. */
  lemma NumeralParses(n: nat, base: nat)
    requires 2 <= base <= 16 && n <= MAX_U32
    ensures ParseU32(Numeral(n, base), base) == Some(n)
    ensures ',' !in Numeral(n, base) && '-' !in Numeral(n, base)
  {
    hide Numeral, Digits, Plain;
    var s := Numeral(n, base);
    NumeralValue(n, base);
    NumeralPlain(n, base);
    forall c | c in s ensures c != ',' && c != '-' && c != '+' { PlainIsNothingElse(c); }
    assert s[0] in s;
  }

  // ---- Parts ----

  /** Parts with commas between them. */
  function Listed(parts: seq<string>): string
    requires parts != []
  {
    if |parts| == 1 then parts[0] else parts[0] + "," + Listed(parts[1..])
  }

  lemma {:induction false} ListedSplits(parts: seq<string>)
    requires parts != [] && forall p :: p in parts ==> ',' !in p
    ensures Split(Listed(parts), ',') == parts
  {
    SplitWhole(parts[0], ',');
    hide Split;
    if |parts| == 1 {
      assert parts == [parts[0]];
    } else {
      ListedSplits(parts[1..]);
      SplitJoined(parts[0], ',', Listed(parts[1..]));
      assert parts[0] + [','] + Listed(parts[1..]) == parts[0] + "," + Listed(parts[1..]);
      assert parts == [parts[0]] + parts[1..];
    }
  }

  /** Trimming does nothing to parts without white space at their ends. */
  lemma ListedTrimmed(parts: seq<string>)
    requires parts != [] && forall p :: p in parts ==> ',' !in p && Trimmed(p)
    ensures Trim(Listed(parts)) == Listed(parts)
  {
    hide Trim, Trimmed, Split, Listed, IsSpace;
    ListedSplits(parts);
    DashIsNoSpace();
    assert parts[0] in parts && Last(parts) in parts;
    PartsTrimmed(Listed(parts), ',');
    TrimTrimmed(Listed(parts));
  }

  // ---- Lists ----

  /** One CPU as its number, more as both ends with a dash. */
  function RangeText(r: Range): string {
    if r.0 == r.1 then Numeral(r.0, 10) else Numeral(r.0, 10) + "-" + Numeral(r.1, 10)
  }

  lemma RangeParses(r: Range)
    requires r.0 <= MAX_U32 && r.1 <= MAX_U32
    ensures ParseRange(RangeText(r)) == Some(r)
    ensures ',' !in RangeText(r) && Trimmed(RangeText(r)) && RangeText(r) != []
  {
    hide ParseU32, Numeral, Trimmed, IsSpace;
    var lo, hi := Numeral(r.0, 10), Numeral(r.1, 10);
    NumeralParses(r.0, 10);
    NumeralParses(r.1, 10);
    SplitWhole(lo, '-');
    SplitWhole(hi, '-');
    SplitJoined(lo, '-', hi);
    NumberTrimmed(lo, 10);
    NumberTrimmed(hi, 10);
    hide Split;
    assert lo + ['-'] + hi == lo + "-" + hi;
    if r.0 != r.1 {
      DashIsNoSpace();
      PartsTrimmed(lo + "-" + hi, '-');
    }
  }

  function RangeTexts(rs: seq<Range>): seq<string> { seq(|rs|, i requires 0 <= i < |rs| => RangeText(rs[i])) }

  /** A CPU list as it is usually written. */
  function ListText(rs: seq<Range>): string { if rs == [] then "" else Listed(RangeTexts(rs)) }

  lemma {:induction false} RangesParse(rs: seq<Range>)
    requires Bounded(rs)
    ensures ParseRanges(RangeTexts(rs)) == Some(rs)
  {
    hide ParseRange, RangeText;
    if rs == [] {
    } else {
      RangesParse(rs[1..]);
      RangeParses(rs[0]);
      assert RangeTexts(rs)[1..] == RangeTexts(rs[1..]);
      assert rs == [rs[0]] + rs[1..];
    }
  }

  lemma TextsPlain(rs: seq<Range>)
    requires Bounded(rs)
    ensures forall p :: p in RangeTexts(rs) ==> ',' !in p && Trimmed(p) && p != []
  {
    hide RangeText, Trimmed;
    forall p | p in RangeTexts(rs) ensures ',' !in p && Trimmed(p) && p != [] {
      var i :| 0 <= i < |rs| && RangeTexts(rs)[i] == p;
      RangeParses(rs[i]);
    }
  }

  lemma ListedSome(parts: seq<string>)
    requires parts != [] && parts[0] != []
    ensures Listed(parts) != []
  {
  }

  /** A list of ranges written out reads back as those ranges; it is blank only without any. */
  lemma ListParses(rs: seq<Range>)
    requires Bounded(rs)
    ensures ParseList(ListText(rs)) == Some(rs) && (Trim(ListText(rs)) == "" <==> rs == [])
  {
    hide RangeTexts, Listed, Trim, Split, ParseRanges, Trimmed;
    if rs == [] {
      assert Trim("") == "" by { BlankTrimmed(); }
    } else {
      var parts := RangeTexts(rs);
      assert |parts| == |rs| by { TextsCount(rs); }
      TextsPlain(rs);
      assert parts[0] in parts;
      RangesParse(rs);
      ListedSplits(parts);
      ListedTrimmed(parts);
      ListedSome(parts);
    }
  }

  lemma BlankTrimmed()
    ensures Trim("") == ""
  {
  }

  lemma TextsCount(rs: seq<Range>)
    ensures |RangeTexts(rs)| == |rs|
  {
  }

  // ---- Masks ----

  function WordTexts(words: seq<nat>): seq<string> {
    seq(|words|, i requires 0 <= i < |words| => Numeral(words[i], 16))
  }

  /** A mask as words of hexadecimal digits. */
  function MaskText(words: seq<nat>): string
    requires words != []
  {
    Listed(WordTexts(words))
  }

  lemma {:induction false} WordsParse(words: seq<nat>)
    requires forall i :: 0 <= i < |words| ==> words[i] <= MAX_U32
    ensures ParseWords(WordTexts(words)) == Some(words)
  {
    hide ParseU32, Numeral;
    if words == [] {
    } else {
      WordsParse(words[1..]);
      NumeralParses(words[0], 16);
      assert WordTexts(words)[1..] == WordTexts(words[1..]);
      assert words == [words[0]] + words[1..];
    }
  }

  lemma MaskParses(words: seq<nat>)
    requires words != [] && forall i :: 0 <= i < |words| ==> words[i] <= MAX_U32
    ensures ParseMask(MaskText(words)) == Some(words)
  {
    hide Listed, Trim, Split, ParseWords, Trimmed, Numeral, ParseU32;
    var parts := WordTexts(words);
    forall p | p in parts ensures ',' !in p && Trimmed(p) {
      var i :| 0 <= i < |words| && parts[i] == p;
      NumeralParses(words[i], 16);
      NumberTrimmed(p, 16);
    }
    WordsParse(words);
    ListedSplits(parts);
    ListedTrimmed(parts);
  }

  // ---- What controls say, as written ----

  /** Where the text of a control is a list, two lists as written are equivalent exactly if they hold the same CPUs. */
  lemma WrittenListsIff(path: string, a: seq<Range>, b: seq<Range>)
    requires EndsWith(path, "smp_affinity_list") || EndsWith(path, "cpuset.cpus") || StartsWith(path, "task-affinity:")
    requires !EndsWith(path, "rps_cpus") && WellFormed(a) && WellFormed(b)
    ensures Equivalent(path, ListText(a), ListText(b)) <==> SameCpus(a, b)
  {
    hide ListText, ParseList, Normal, In;
    ListParses(a);
    ListParses(b);
    NormalIffSameCpus(a, b);
  }

  /** Where it is a mask, two masks as written are equivalent exactly if they are the same number. */
  lemma WrittenMasksIff(path: string, a: seq<nat>, b: seq<nat>)
    requires EndsWith(path, "rps_cpus") && a != [] && b != []
    requires (forall i :: 0 <= i < |a| ==> a[i] <= MAX_U32) && forall i :: 0 <= i < |b| ==> b[i] <= MAX_U32
    ensures Equivalent(path, MaskText(a), MaskText(b)) <==> Number(a) == Number(b)
  {
    hide MaskText, ParseMask, Stripped, Number;
    MaskParses(a);
    MaskParses(b);
    MasksIffSameNumber(MaskText(a), MaskText(b));
  }

  /** Any other control is compared as trimmed text. */
  lemma OtherTextsIff(path: string, a: string, b: string)
    requires !EndsWith(path, "rps_cpus") && !EndsWith(path, "smp_affinity_list")
    requires !EndsWith(path, "cpuset.cpus") && !StartsWith(path, "task-affinity:")
    ensures Equivalent(path, a, b) <==> Trim(a) == Trim(b)
  {
  }

  /** A request for CPUs of an interrupt or a cpuset, as written, allows exactly the non-empty subsets. */
  lemma WrittenEffectiveIff(path: string, actual: seq<Range>, requested: seq<Range>)
    requires var name := Last(Split(path, '/')); name == "smp_affinity_list" || name == "cpuset.cpus"
    requires WellFormed(actual) && WellFormed(requested) && requested != []
    ensures EffectiveAllowed(path, ListText(actual), ListText(requested)) <==>
            actual != [] && forall x: nat :: In(actual, x) ==> In(requested, x)
  {
    hide ListText, ParseList, In, EffectiveAllowed, Trim, Split;
    ListParses(actual);
    ListParses(requested);
    EffectiveIffSubset(path, ListText(actual), ListText(requested));
    SomeIn(actual);
  }

  lemma SomeIn(rs: seq<Range>)
    requires WellFormed(rs)
    ensures rs != [] <==> exists x: nat :: In(rs, x)
  {
    if rs != [] { assert In(rs, rs[0].0); }
  }

  lemma BoundsParse(r: Range)
    requires r.0 <= MAX_U32 && r.1 <= MAX_U32
    ensures ParseBounds(Split(RangeText(r), '-')) == Some(if r.0 == r.1 then [r.0] else [r.0, r.1])
  {
    hide ParseU32, Numeral;
    var lo, hi := Numeral(r.0, 10), Numeral(r.1, 10);
    NumeralParses(r.0, 10);
    NumeralParses(r.1, 10);
    SplitWhole(lo, '-');
    SplitWhole(hi, '-');
    SplitJoined(lo, '-', hi);
    hide Split;
    assert lo + ['-'] + hi == lo + "-" + hi;
    OneBound(lo);
    OneBound(hi);
    if r.0 != r.1 {
      assert Split(RangeText(r), '-') == [lo, hi];
      assert [lo, hi][1..] == [hi];
      assert [r.0] + [r.1] == [r.0, r.1];
      assert ParseBounds([lo, hi]) == Some([r.0] + [r.1]);
    }
  }

  lemma OneBound(s: string)
    requires ParseU32(s, 10).Some?
    ensures ParseBounds([s]) == Some([ParseU32(s, 10).value])
  {
    hide ParseU32;
    var none: seq<string> := [];
    assert [s][1..] == none && ParseBounds(none) == Some([]);
    assert [ParseU32(s, 10).value] + [] == [ParseU32(s, 10).value];
  }

  /** A request as written is accepted exactly if it names CPUs, the right way up, and none above 1048575. */
  lemma WrittenValidIff(rs: seq<Range>)
    requires Bounded(rs)
    ensures ValidCpus(ListText(rs)) <==>
            rs != [] && forall i :: 0 <= i < |rs| ==> rs[i].0 <= rs[i].1 <= 1048575
  {
    if rs != [] {
      TextsPlain(rs);
      ListedSplits(RangeTexts(rs));
      assert RangeTexts(rs)[0] in RangeTexts(rs);
      ListedSome(RangeTexts(rs));
      hide Split, Listed, RangeText, ValidPart, ParseBounds;
      forall i | 0 <= i < |rs|
        ensures ValidPart(RangeTexts(rs)[i]) <==> rs[i].0 <= rs[i].1 <= 1048575
      {
        PartIff(rs[i]);
      }
    }
  }

  lemma PartIff(r: Range)
    requires r.0 <= MAX_U32 && r.1 <= MAX_U32
    ensures ValidPart(RangeText(r)) <==> r.0 <= r.1 <= 1048575
  {
    hide Split, RangeText, ParseBounds;
    BoundsParse(r);
    var b := if r.0 == r.1 then [r.0] else [r.0, r.1];
    assert b[0] == r.0 && b[|b| - 1] == r.1;
  }
}
