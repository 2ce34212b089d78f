/** Sums of sequences and of maps of counters, and bounds of sets of numbers. */
module Sums {

  function SumSeq(s: seq<nat>): nat {
    if s == [] then 0 else s[0] + SumSeq(s[1..])
  }

  lemma {:induction false} SumSeqUpdate(s: seq<nat>, i: nat, v: nat)
    requires i < |s|
    ensures SumSeq(s[i := v]) == SumSeq(s) - s[i] + v
  {
    if i == 0 {
      assert s[0 := v][1..] == s[1..];
    } else {
      assert s[i := v][1..] == s[1..][i - 1 := v];
      SumSeqUpdate(s[1..], i - 1, v);
    }
  }

  ghost function Total<K>(m: map<K, nat>): nat {
    if m == map[] then 0
    else
      assert m.Keys != {};
      var k :| k in m;
      m[k] + Total(m - {k})
  }

  /** Any entry can be taken out first. */
  lemma {:induction false} TotalWithout<K>(m: map<K, nat>, k: K)
    requires k in m
    ensures Total(m) == m[k] + Total(m - {k})
    decreases |m|
  {
    var j :| j in m && Total(m) == m[j] + Total(m - {j});
    if j != k {
      TotalWithout(m - {j}, k);
      TotalWithout(m - {k}, j);
      assert m - {j} - {k} == m - {k} - {j};
    }
  }

  lemma TotalSet<K>(m: map<K, nat>, k: K, v: nat)
    ensures Total(m[k := v]) == Total(m) - (if k in m then m[k] else 0) + v
  {
    var n := m[k := v];
    TotalWithout(n, k);
    if k in m {
      TotalWithout(m, k);
      assert n - {k} == m - {k};
    } else {
      assert n - {k} == m;
    }
  }

  /** Counters bounded entry by entry are bounded in total. */
  lemma {:induction false} TotalBound<K>(a: map<K, nat>, b: map<K, nat>)
    requires forall k :: k in a ==> k in b && a[k] <= b[k]
    ensures Total(a) <= Total(b)
    decreases |a|
  {
    if a == map[] {
    } else {
      var k :| k in a;
      TotalWithout(a, k);
      TotalWithout(b, k);
      TotalBound(a - {k}, b - {k});
    }
  }

  /** A number above all members of a set. */
  lemma {:induction false} Above(s: set<nat>) returns (n: nat)
    ensures forall k :: k in s ==> k < n
    decreases |s|
  {
    if s == {} { n := 0; } else {
      var k :| k in s;
      var m := Above(s - {k});
      n := if m > k then m else k + 1;
      assert forall j :: j in s ==> j == k || j in s - {k};
    }
  }
}
