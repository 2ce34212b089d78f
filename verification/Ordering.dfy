/** Strict orders, sorted sequences and the orders of names and paths. */
module Ordering {

  ghost predicate StrictTotal<T(!new)>(lt: (T, T) -> bool) {
    && (forall x :: !lt(x, x))
    && (forall x, y, z :: lt(x, y) && lt(y, z) ==> lt(x, z))
    && (forall x, y :: lt(x, y) || x == y || lt(y, x))
  }

  ghost predicate Increasing<T>(lt: (T, T) -> bool, s: seq<T>) {
    forall i, j :: 0 <= i < j < |s| ==> lt(s[i], s[j])
  }

  /** Two strictly increasing sequences with the same elements are equal. */
  lemma {:induction false} IncreasingUnique<T(!new)>(lt: (T, T) -> bool, a: seq<T>, b: seq<T>)
    requires forall x :: !lt(x, x)
    requires forall x, y, z :: lt(x, y) && lt(y, z) ==> lt(x, z)
    requires Increasing(lt, a) && Increasing(lt, b)
    requires forall x :: x in a <==> x in b
    ensures a == b
  {
    assert b != [] ==> b[0] in a;
    assert a != [] ==> a[0] in b;
    if a == [] {
    } else {
      var i :| 0 <= i < |b| && b[i] == a[0];
      var j :| 0 <= j < |a| && a[j] == b[0];
      assert a[0] == b[0];
      assert a == [a[0]] + a[1..] && b == [b[0]] + b[1..];
      forall x ensures x in a[1..] <==> x in b[1..] {
        if x in a[1..] {
          var i :| 0 < i < |a| && a[i] == x;
          assert lt(a[0], a[i]) && x in b;
        }
        if x in b[1..] {
          var i :| 0 < i < |b| && b[i] == x;
          assert lt(b[0], b[i]) && x in a;
        }
      }
      IncreasingUnique(lt, a[1..], b[1..]);
    }
  }

  /** Stable insertion: x goes before the first element it is not after. */
  function Place<T>(lt: (T, T) -> bool, x: T, s: seq<T>): (r: seq<T>)
    ensures multiset(r) == multiset{x} + multiset(s)
    ensures |r| == |s| + 1
  {
    if s == [] then [x]
    else if lt(s[0], x) then
      assert s == [s[0]] + s[1..];
      [s[0]] + Place(lt, x, s[1..])
    else [x] + s
  }

  /** A stable sort: what slice sorting yields for a given order. */
  function Sort<T>(lt: (T, T) -> bool, s: seq<T>): (r: seq<T>)
    ensures multiset(r) == multiset(s)
    ensures |r| == |s|
  {
    if s == [] then []
    else
      assert s == [s[0]] + s[1..];
      Place(lt, s[0], Sort(lt, s[1..]))
  }

  lemma SortMembers<T(!new)>(lt: (T, T) -> bool, s: seq<T>)
    ensures forall x :: x in Sort(lt, s) <==> x in s
  {
    forall x ensures x in Sort(lt, s) <==> x in s {
      assert x in multiset(Sort(lt, s)) <==> x in multiset(s);
    }
  }

  /** The elements of s are told apart by the order. */
  ghost predicate Separated<T>(lt: (T, T) -> bool, s: seq<T>) {
    forall i, j :: 0 <= i < j < |s| ==> lt(s[i], s[j]) || lt(s[j], s[i])
  }

  lemma {:induction false} PlaceIncreasing<T(!new)>(lt: (T, T) -> bool, x: T, s: seq<T>)
    requires forall x, y, z :: lt(x, y) && lt(y, z) ==> lt(x, z)
    requires Increasing(lt, s)
    requires forall y :: y in s ==> lt(x, y) || lt(y, x)
    ensures Increasing(lt, Place(lt, x, s))
  {
    var r := Place(lt, x, s);
    if s != [] && lt(s[0], x) {
      PlaceIncreasing(lt, x, s[1..]);
      var t := Place(lt, x, s[1..]);
      forall y | y in t ensures lt(s[0], y) {
        assert y in multiset(t);
        assert y == x || y in multiset(s[1..]);
        if y != x {
          var i :| 0 < i < |s| && s[i] == y;
        }
      }
      forall i, j | 0 <= i < j < |r| ensures lt(r[i], r[j]) {
        if i == 0 { assert r[j] == t[j - 1]; } else { assert r[i] == t[i - 1] && r[j] == t[j - 1]; }
      }
    } else if s != [] {
      forall i, j | 0 <= i < j < |r| ensures lt(r[i], r[j]) {
        if i == 0 && j > 1 { assert lt(s[0], s[j - 1]); }
      }
    }
  }

  lemma {:induction false} SortIncreasing<T(!new)>(lt: (T, T) -> bool, s: seq<T>)
    requires forall x, y, z :: lt(x, y) && lt(y, z) ==> lt(x, z)
    requires Separated(lt, s)
    ensures Increasing(lt, Sort(lt, s))
  {
    if s == [] {
    } else {
      SortIncreasing(lt, s[1..]);
      SortMembers(lt, s[1..]);
      forall y | y in Sort(lt, s[1..]) ensures lt(s[0], y) || lt(y, s[0]) {
        var i :| 0 < i < |s| && s[i] == y;
      }
      PlaceIncreasing(lt, s[0], Sort(lt, s[1..]));
    }
  }

  /** Lexicographic order over an order of elements: a prefix comes first. */
  predicate Lex<T(==)>(lt: (T, T) -> bool, a: seq<T>, b: seq<T>) {
    b != [] && (a == [] || lt(a[0], b[0]) || (a[0] == b[0] && Lex(lt, a[1..], b[1..])))
  }

  lemma {:induction false} LexIrreflexive<T>(lt: (T, T) -> bool, a: seq<T>)
    requires forall x :: x in a ==> !lt(x, x)
    ensures !Lex(lt, a, a)
  {
    if a == [] {
    } else {
      LexIrreflexive(lt, a[1..]);
    }
  }

  lemma {:induction false} LexTransitive<T(!new)>(lt: (T, T) -> bool, a: seq<T>, b: seq<T>, c: seq<T>)
    requires StrictTotal(lt)
    requires Lex(lt, a, b) && Lex(lt, b, c)
    ensures Lex(lt, a, c)
  {
    if a != [] && a[0] == b[0] && b[0] == c[0] {
      LexTransitive(lt, a[1..], b[1..], c[1..]);
    }
  }

  lemma {:induction false} LexTotal<T(!new)>(lt: (T, T) -> bool, a: seq<T>, b: seq<T>)
    requires StrictTotal(lt)
    ensures Lex(lt, a, b) || a == b || Lex(lt, b, a)
  {
    if a != [] && b != [] && a[0] == b[0] {
      LexTotal(lt, a[1..], b[1..]);
      assert a == [a[0]] + a[1..] && b == [b[0]] + b[1..];
    }
  }

  lemma LexStrictTotal<T(!new)>(lt: (T, T) -> bool, lex: (seq<T>, seq<T>) -> bool)
    requires StrictTotal(lt)
    requires forall a, b :: lex(a, b) <==> Lex(lt, a, b)
    ensures StrictTotal(lex)
  {
    forall a ensures !lex(a, a) { LexIrreflexive(lt, a); }
    forall a, b, c | lex(a, b) && lex(b, c) ensures lex(a, c) { LexTransitive(lt, a, b, c); }
    forall a, b ensures lex(a, b) || a == b || lex(b, a) { LexTotal(lt, a, b); }
  }

  predicate CharBefore(x: char, y: char) { x < y }

  /** String order: by code point, as ordered maps of names iterate. */
  predicate Before(a: string, b: string) { Lex(CharBefore, a, b) }

  type Path = seq<string>

  /** Path order: a frame's path comes before the paths that extend it. */
  predicate PathBefore(p: Path, q: Path) { Lex(Before, p, q) }

  lemma BeforeStrictTotal()
    ensures StrictTotal(Before)
  {
    LexStrictTotal(CharBefore, Before);
  }

  lemma PathBeforeStrictTotal()
    ensures StrictTotal(PathBefore)
  {
    BeforeStrictTotal();
    LexStrictTotal(Before, PathBefore);
  }

  /** Paths that share a prefix compare by what follows it. */
  lemma {:induction false} PathBeforePrefix(prefix: Path, p: Path, q: Path)
    ensures PathBefore(prefix + p, prefix + q) == PathBefore(p, q)
  {
    if prefix == [] {
      assert prefix + p == p && prefix + q == q;
    } else {
      BeforeStrictTotal();
      assert (prefix + p)[1..] == prefix[1..] + p && (prefix + q)[1..] == prefix[1..] + q;
      PathBeforePrefix(prefix[1..], p, q);
    }
  }

  /** Up to position i the sequences agree; there the first ends or has the smaller element. */
  predicate LessFrom<T(==)>(lt: (T, T) -> bool, a: seq<T>, b: seq<T>, i: nat) {
    i <= |a| && i < |b| && a[..i] == b[..i] && (i == |a| || lt(a[i], b[i]))
  }

  /** The lexicographic order is decided at some position up to which the sequences agree. */
  lemma {:induction false} LexIff<T>(lt: (T, T) -> bool, a: seq<T>, b: seq<T>)
    ensures Lex(lt, a, b) <==> exists i: nat :: LessFrom(lt, a, b, i)
  {
    if a == [] || b == [] {
      if b != [] { assert LessFrom(lt, a, b, 0); }
    } else {
      LexIff(lt, a[1..], b[1..]);
      if lt(a[0], b[0]) { assert LessFrom(lt, a, b, 0); }
      if a[0] == b[0] && Lex(lt, a[1..], b[1..]) {
        var i: nat :| LessFrom(lt, a[1..], b[1..], i);
        assert a[..i + 1] == [a[0]] + a[1..][..i] && b[..i + 1] == [b[0]] + b[1..][..i];
        assert LessFrom(lt, a, b, i + 1);
      }
      if i: nat :| LessFrom(lt, a, b, i) && i > 0 {
        assert a[0] == a[..i][0] == b[..i][0] == b[0];
        assert a[1..][..i - 1] == a[..i][1..] == b[..i][1..] == b[1..][..i - 1];
        assert LessFrom(lt, a[1..], b[1..], i - 1);
      }
    }
  }

  /** Names: by the first code point in which they differ, a prefix first. */
  lemma BeforeIff(a: string, b: string)
    ensures Before(a, b) <==>
            exists i: nat :: i <= |a| && i < |b| && a[..i] == b[..i] && (i == |a| || a[i] < b[i])
  {
    LexIff(CharBefore, a, b);
    if Before(a, b) {
      var i: nat :| LessFrom(CharBefore, a, b, i);
      assert a[..i] == b[..i];
    }
    if i: nat :| i <= |a| && i < |b| && a[..i] == b[..i] && (i == |a| || a[i] < b[i]) {
      assert LessFrom(CharBefore, a, b, i);
    }
  }

  /** Paths: by the first name in which they differ, a prefix first. */
  lemma PathBeforeIff(p: Path, q: Path)
    ensures PathBefore(p, q) <==>
            exists i: nat :: i <= |p| && i < |q| && p[..i] == q[..i] && (i == |p| || Before(p[i], q[i]))
  {
    LexIff(Before, p, q);
    if PathBefore(p, q) {
      var i: nat :| LessFrom(Before, p, q, i);
      assert p[..i] == q[..i];
    }
    if i: nat :| i <= |p| && i < |q| && p[..i] == q[..i] && (i == |p| || Before(p[i], q[i])) {
      assert LessFrom(Before, p, q, i);
    }
  }
}
