/** Options, and the sizes of finite sets and of sequences without repetition. */
module Collections {

  datatype Option<+T> = None | Some(value: T)

  /**
   A type with one value. `forall seal: Seal :: P(x, seal)` says no more than `P(x, Seal)`,
   but proofs that only pass it on do not unfold `P`; mentioning `P(x, Seal)` does.
   */
  datatype Seal = Seal

  ghost predicate Distinct<T>(s: seq<T>)
  {
    forall i, j :: 0 <= i < j < |s| ==> s[i] != s[j]
  }

  /** The set `{0, ..., n - 1}`. */
  ghost function UpTo(n: nat): (r: set<nat>)
    ensures |r| == n
    ensures forall i: nat :: i in r <==> i < n
  {
    if n == 0 then {} else UpTo(n - 1) + {n - 1}
  }

  ghost function Members<T>(s: seq<T>): (r: set<T>)
    ensures forall x :: x in s ==> x in r
    ensures forall x :: x in r ==> x in s
  {
    set x | x in s
  }

  lemma {:induction false} DistinctSize<T>(s: seq<T>)
    requires Distinct(s)
    ensures |Members(s)| == |s|
    decreases |s|
  {
    if |s| > 0 {
      var n := |s| - 1;
      DistinctSize(s[..n]);
      assert s == s[..n] + [s[n]];
      assert Members(s) == Members(s[..n]) + {s[n]};
    } else {
      assert Members(s) == {};
    }
  }

  lemma SubsetSize<T>(a: set<T>, b: set<T>)
    requires a <= b
    ensures |a| <= |b|
    ensures a != b ==> |a| < |b|
  {
    assert b == a + (b - a);
  }

  /** Distinct numbers and a set disjoint from them, all below `n`, are together at most `n`. */
  lemma RoomBelow(s: seq<nat>, others: set<nat>, n: nat)
    requires Distinct(s)
    requires forall j :: 0 <= j < |s| ==> s[j] < n && s[j] !in others
    requires forall i :: i in others ==> i < n
    ensures |others| + |s| <= n
  {
    DistinctSize(s);
    SubsetSize(others + Members(s), UpTo(n));
    assert others !! Members(s);
  }
}
