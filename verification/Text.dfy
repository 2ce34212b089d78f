/** The text handling control values go through: trimming, splitting and reading numbers. */
module Text {
  import opened Wrappers

  /** White space in the Unicode sense. */
  predicate IsSpace(c: char) {
    var n := c as int;
    || 9 <= n <= 13 || n == 32 || n == 0x85 || n == 0xA0 || n == 0x1680 || 0x2000 <= n <= 0x200A
    || n == 0x2028 || n == 0x2029 || n == 0x202F || n == 0x205F || n == 0x3000
  }

  function TrimStart(s: string): string { if s != [] && IsSpace(s[0]) then TrimStart(s[1..]) else s }

  function TrimEnd(s: string): string { if s != [] && IsSpace(s[|s| - 1]) then TrimEnd(s[..|s| - 1]) else s }

  function Trim(s: string): string { TrimEnd(TrimStart(s)) }

  predicate Trimmed(s: string) { s == [] || (!IsSpace(s[0]) && !IsSpace(s[|s| - 1])) }

  lemma {:induction false} TrimEndKeepsStart(s: string)
    requires s == [] || !IsSpace(s[0])
    ensures Trimmed(TrimEnd(s))
  {
    if s != [] && IsSpace(s[|s| - 1]) {
      TrimEndKeepsStart(s[..|s| - 1]);
    }
  }

  lemma {:induction false} TrimStartStarts(s: string)
    ensures TrimStart(s) == [] || !IsSpace(TrimStart(s)[0])
  {
    if s != [] && IsSpace(s[0]) { TrimStartStarts(s[1..]); }
  }

  lemma TrimIsTrimmed(s: string)
    ensures Trimmed(Trim(s))
  {
    TrimStartStarts(s);
    TrimEndKeepsStart(TrimStart(s));
  }

  lemma TrimTrimmed(s: string)
    requires Trimmed(s)
    ensures Trim(s) == s
  {
  }

  lemma {:induction false} TrimEndBare(s: string)
    requires s == [] || !IsSpace(s[|s| - 1])
    ensures TrimEnd(s) == s
  {
  }

  /** What is written with a line end reads back as the trimmed text. */
  lemma TrimLine(s: string)
    ensures Trim(Trim(s) + "\n") == Trim(s)
  {
    var t := Trim(s);
    TrimIsTrimmed(s);
    var u := t + "\n";
    assert IsSpace('\n');
    if t == [] {
      assert u == ['\n'] && u[1..] == [];
      assert TrimStart(u) == TrimStart(u[1..]) == [];
    } else {
      assert TrimStart(u) == u;
      assert u[..|u| - 1] == t;
      TrimEndBare(t);
      assert TrimEnd(u) == TrimEnd(u[..|u| - 1]);
    }
  }

  /** `str::split` by a character: always at least one part. */
  function Split(s: string, c: char): (r: seq<string>)
    ensures |r| > 0
  {
    if s == [] then [""]
    else if s[0] == c then [""] + Split(s[1..], c)
    else
      var rest := Split(s[1..], c);
      [[s[0]] + rest[0]] + rest[1..]
  }

  /** One more character in front of a split text. */
  function Put(x: char, parts: seq<string>, c: char): seq<string>
    requires parts != []
  {
    if x == c then [""] + parts else [[x] + parts[0]] + parts[1..]
  }

  lemma SplitCons(x: char, s: string, c: char)
    ensures Split([x] + s, c) == Put(x, Split(s, c), c)
  {
    assert ([x] + s)[1..] == s;
  }

  lemma PutAppend(a: seq<string>, b: seq<string>, x: char, c: char)
    requires a != []
    ensures Put(x, a + b, c) == Put(x, a, c) + b
  {
  }

  lemma {:induction false} SplitJoined(a: string, c: char, b: string)
    ensures Split(a + [c] + b, c) == Split(a, c) + Split(b, c)
  {
    var s := a + [c] + b;
    if a == [] {
      assert s[1..] == b;
    } else {
      assert s[1..] == a[1..] + [c] + b;
      SplitJoined(a[1..], c, b);
      SplitCons(a[0], a[1..], c);
      SplitCons(a[0], a[1..] + [c] + b, c);
      assert a == [a[0]] + a[1..] && s == [a[0]] + (a[1..] + [c] + b);
      hide Split;
      PutAppend(Split(a[1..], c), Split(b, c), a[0], c);
    }
  }

  /** A text without the separator is its only part. */
  lemma {:induction false} SplitWhole(s: string, c: char)
    requires c !in s
    ensures Split(s, c) == [s]
  {
    if s == [] {
    } else {
      SplitWhole(s[1..], c);
      assert [s[0]] + s[1..] == s && Split(s[1..], c)[1..] == [];
    }
  }

  function Last<T>(s: seq<T>): T
    requires s != []
  {
    s[|s| - 1]
  }

  predicate EndsWith(s: string, t: string) { |t| <= |s| && s[|s| - |t|..] == t }

  predicate StartsWith(s: string, t: string) { |t| <= |s| && s[..|t|] == t }

  /** The last part of a split is how the text ends. */
  lemma {:induction false} SplitLast(s: string, c: char)
    ensures EndsWith(s, Last(Split(s, c)))
  {
    if s == [] {
    } else {
      SplitLast(s[1..], c);
      SplitLastNext(s, c);
      var rest := Split(s[1..], c);
      hide Split, EndsWith;
      if s[0] != c && |rest| == 1 {
        SplitSingle(s[1..], c);
        assert [s[0]] + rest[0] == s;
        EndsItself(s);
      } else {
        EndsCons(s, Last(rest));
      }
    }
  }

  lemma EndsItself(s: string)
    ensures EndsWith(s, s)
  {
  }

  lemma SplitLastNext(s: string, c: char)
    requires s != []
    ensures var rest := Split(s[1..], c);
            Last(Split(s, c)) == if s[0] != c && |rest| == 1 then [s[0]] + rest[0] else Last(rest)
  {
  }

  lemma EndsCons(s: string, t: string)
    requires s != [] && EndsWith(s[1..], t)
    ensures EndsWith(s, t)
  {
    assert s[|s| - |t|..] == s[1..][|s[1..]| - |t|..];
  }

  lemma {:induction false} SplitSingle(s: string, c: char)
    requires |Split(s, c)| == 1
    ensures Split(s, c)[0] == s
  {
    if s == [] {
    } else {
      SplitSingle(s[1..], c);
    }
  }

  // ---- Numbers ----

  const MAX_U32: nat := 0xFFFF_FFFF

  /** The value of a digit in base 16, or None. */
  function Digit(c: char): Option<nat> {
    if '0' <= c <= '9' then Some((c as int) - ('0' as int))
    else if 'a' <= c <= 'f' then Some((c as int) - ('a' as int) + 10)
    else if 'A' <= c <= 'F' then Some((c as int) - ('A' as int) + 10)
    else None
  }

  function Digits(s: string, base: nat): Option<nat> {
    if s == [] then Some(0)
    else
      var before, d := Digits(s[..|s| - 1], base), Digit(s[|s| - 1]);
      if before.Some? && d.Some? && d.value < base then Some(before.value * base + d.value) else None
  }

  /** `u32` parsing: an optional plus sign, at least one digit, no overflow. */
  function ParseU32(s: string, base: nat): (r: Option<nat>)
    ensures r.Some? ==> r.value <= MAX_U32
  {
    var t := if s != [] && s[0] == '+' then s[1..] else s;
    var n := Digits(t, base);
    if t == [] || n.None? || n.value > MAX_U32 then None else n
  }

  lemma {:induction false} DigitsOnly(s: string, base: nat, i: nat)
    requires Digits(s, base).Some? && i < |s|
    ensures !IsSpace(s[i])
  {
    if i < |s| - 1 { DigitsOnly(s[..|s| - 1], base, i); }
  }

  /** A number has no white space at its ends. */
  lemma NumberTrimmed(s: string, base: nat)
    requires ParseU32(s, base).Some?
    ensures s != [] && Trimmed(s)
  {
    hide Digits, IsSpace;
    assert !IsSpace('+') by { PlusIsNoSpace(); }
    var t := if s[0] == '+' then s[1..] else s;
    DigitsOnly(t, base, 0);
    DigitsOnly(t, base, |t| - 1);
  }

  lemma PlusIsNoSpace()
    ensures !IsSpace('+')
  {
  }

  /** Parts without white space at their ends make a text without. */
  lemma {:induction false} PartsTrimmed(s: string, c: char)
    requires !IsSpace(c)
    requires Trimmed(Split(s, c)[0]) && Trimmed(Last(Split(s, c)))
    ensures Trimmed(s)
  {
    hide IsSpace;
    if s != [] {
      FirstChar(s, c);
      LastChar(s, c);
    }
  }

  lemma FirstChar(s: string, c: char)
    requires s != []
    ensures s[0] == c || (Split(s, c)[0] != [] && Split(s, c)[0][0] == s[0])
  {
  }

  lemma {:induction false} LastChar(s: string, c: char)
    requires s != []
    ensures s[|s| - 1] == c || (Last(Split(s, c)) != [] && Last(Last(Split(s, c))) == s[|s| - 1])
  {
    if |s| > 1 {
      LastChar(s[1..], c);
      var rest := Split(s[1..], c);
      if s[0] != c && |rest| == 1 && rest[0] != [] { assert Last([s[0]] + rest[0]) == Last(rest[0]); }
    }
  }
}
