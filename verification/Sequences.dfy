/** Sequences of indices, and counting them. */
module Sequences {

  /** All elements are indices below `n`. */
  predicate Indices(s: seq<nat>, n: nat) {
    forall i :: 0 <= i < |s| ==> s[i] < n
  }

  predicate Distinct<T(==)>(s: seq<T>) {
    forall i, j :: 0 <= i < j < |s| ==> s[i] != s[j]
  }

  lemma {:induction false} Pigeonhole(f: seq<nat>, holes: nat) returns (i: nat, j: nat)
    requires |f| > holes && forall k :: 0 <= k < |f| ==> f[k] < holes
    ensures i < j < |f| && f[i] == f[j]
  {
    if k :| 0 <= k < |f| && f[k] == holes - 1 {
      if m :| 0 <= m < |f| && m != k && f[m] == holes - 1 {
        i, j := if k < m then k else m, if k < m then m else k;
      } else {
        var rest := f[..k] + f[k + 1..];
        forall l | 0 <= l < |rest| ensures rest[l] == f[if l < k then l else l + 1] {}
        i, j := Pigeonhole(rest, holes - 1);
        i, j := if i < k then i else i + 1, if j < k then j else j + 1;
      }
    } else {
      assert f[0] < holes;
      i, j := Pigeonhole(f, holes - 1);
    }
  }

  lemma FreeIndex(taken: seq<nat>, n: nat) returns (free: nat)
    requires |taken| < n
    ensures free < n && free !in taken
  {
    if forall p: nat :: p < n ==> p in taken {
      var at := Positions(taken, n);
      var i, j := Pigeonhole(at, |taken|);
      assert false;
    }
    free :| free < n && free !in taken;
  }

  lemma {:induction false} Positions(taken: seq<nat>, n: nat) returns (at: seq<nat>)
    requires forall p: nat :: p < n ==> p in taken
    ensures |at| == n && forall p: nat :: p < n ==> at[p] < |taken| && taken[at[p]] == p
  {
    at := [];
    if n > 0 {
      at := Positions(taken, n - 1);
      assert n - 1 in taken;
      var k :| 0 <= k < |taken| && taken[k] == n - 1;
      at := at + [k];
    }
  }

  /** Distinct indices below `n` are at most `n` many. */
  lemma InRangeDistinct(s: seq<nat>, n: nat)
    requires Indices(s, n) && Distinct(s)
    ensures |s| <= n
  {
    if |s| > n {
      var i, j := Pigeonhole(s, n);
      assert false;
    }
  }

  lemma Assoc<T>(a: seq<T>, b: seq<T>, c: seq<T>)
    ensures (a + b) + c == a + (b + c)
  {
  }

  function Elements<T>(s: seq<T>): set<T> {
    set t | t in s
  }

  /** Distinct elements are as many as the set of them. */
  lemma {:induction false} DistinctCount<T>(s: seq<T>)
    requires Distinct(s)
    ensures |Elements(s)| == |s|
  {
    if s != [] {
      var n := |s| - 1;
      DistinctCount(s[..n]);
      assert s == s[..n] + [s[n]];
      assert Elements(s) == Elements(s[..n]) + {s[n]};
    }
  }
}
