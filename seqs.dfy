/** The `Array.prototype.filter` pipeline every component of the wizard uses, and the
    subsequence relation its results stand in. */
module Seqs {

  /** `s.filter(keep)`: the elements of `s` for which `keep` holds, in their original order. */
  function Filter<T(!new)>(s: seq<T>, keep: T -> bool): (r: seq<T>)
    ensures |r| <= |s|
    ensures forall i | 0 <= i < |r| :: r[i] in s && keep(r[i])
    ensures forall i | 0 <= i < |s| :: keep(s[i]) ==> s[i] in r
    ensures IsSubsequence(r, s)
    ensures forall x {:trigger multiset(r)[x]} :: multiset(r)[x] == if keep(x) then multiset(s)[x] else 0
  {
    if s == [] then []
    else
      var rest := Filter(s[1..], keep);
      var r := if keep(s[0]) then [s[0]] + rest else rest;
      FilterStepCounts(s, rest, keep, r);
      CountsGiveMembership(s, r, keep);
      FilterStepOrder(s, rest, keep, r);
      r
  }

  /** One step of `Filter`: prepending the first element when it passes keeps the counts
      right. */
  lemma FilterStepCounts<T(!new)>(s: seq<T>, rest: seq<T>, keep: T -> bool, r: seq<T>)
    requires s != [] && r == if keep(s[0]) then [s[0]] + rest else rest
    requires forall x {:trigger multiset(rest)[x]} :: multiset(rest)[x] == if keep(x) then multiset(s[1..])[x] else 0
    ensures forall x {:trigger multiset(r)[x]} :: multiset(r)[x] == if keep(x) then multiset(s)[x] else 0
  {
    assert multiset(s) == multiset{s[0]} + multiset(s[1..]) by {
      assert s == [s[0]] + s[1..];
    }
  }

  /** Counts that agree with `keep` decide membership. */
  lemma CountsGiveMembership<T(!new)>(s: seq<T>, r: seq<T>, keep: T -> bool)
    requires forall x {:trigger multiset(r)[x]} :: multiset(r)[x] == if keep(x) then multiset(s)[x] else 0
    ensures forall i | 0 <= i < |r| :: r[i] in s && keep(r[i])
    ensures forall i | 0 <= i < |s| :: keep(s[i]) ==> s[i] in r
  {
    forall i | 0 <= i < |r| ensures r[i] in s && keep(r[i]) {
      assert multiset(r)[r[i]] > 0;
    }
    forall i | 0 <= i < |s| ensures keep(s[i]) ==> s[i] in r {
      assert multiset(s)[s[i]] > 0;
      assert multiset(r)[s[i]] == if keep(s[i]) then multiset(s)[s[i]] else 0;
    }
  }

  /** One step of `Filter` keeps the order. */
  lemma FilterStepOrder<T>(s: seq<T>, rest: seq<T>, keep: T -> bool, r: seq<T>)
    requires s != [] && r == if keep(s[0]) then [s[0]] + rest else rest
    requires IsSubsequence(rest, s[1..])
    ensures IsSubsequence(r, s) && |r| <= |s|
  {
    if keep(s[0]) {
      assert r[0] == s[0] && r[1..] == rest;
    }
    SubsequenceLength(r, s);
  }

  /** `a` is obtained from `b` by deleting elements, keeping the order of the rest. */
  ghost predicate IsSubsequence<T>(a: seq<T>, b: seq<T>)
    decreases |b|
  {
    if a == [] then true
    else if b == [] then false
    else (a[0] == b[0] && IsSubsequence(a[1..], b[1..])) || IsSubsequence(a, b[1..])
  }

  /** Every sequence is a subsequence of itself. */
  lemma {:induction false} SubsequenceReflexive<T>(s: seq<T>)
    ensures IsSubsequence(s, s)
  {
    if s != [] {
      SubsequenceReflexive(s[1..]);
    }
  }

  lemma {:induction false} SubsequenceLength<T>(a: seq<T>, b: seq<T>)
    requires IsSubsequence(a, b)
    ensures |a| <= |b|
    decreases |b|
  {
    if a != [] {
      if a[0] == b[0] && IsSubsequence(a[1..], b[1..]) {
        SubsequenceLength(a[1..], b[1..]);
      } else {
        SubsequenceLength(a, b[1..]);
      }
    }
  }

  /** Filtering with a predicate that implies another keeps a subsequence of what the
      weaker one keeps. */
  lemma {:induction false} FilterMonotone<T(!new)>(s: seq<T>, strong: T -> bool, weak: T -> bool)
    requires forall x | x in s :: strong(x) ==> weak(x)
    ensures IsSubsequence(Filter(s, strong), Filter(s, weak))
  {
    if s != [] {
      var a, b := Filter(s[1..], strong), Filter(s[1..], weak);
      FilterMonotone(s[1..], strong, weak);
      if strong(s[0]) {
        assert Filter(s, strong) == [s[0]] + a && Filter(s, weak) == [s[0]] + b;
        assert ([s[0]] + a)[1..] == a && ([s[0]] + b)[1..] == b;
      } else if weak(s[0]) {
        assert Filter(s, weak) == [s[0]] + b && ([s[0]] + b)[1..] == b;
      }
    }
  }

  /** Two predicates that agree on every element of `s` filter it identically. */
  lemma {:induction false} FilterAgree<T(!new)>(s: seq<T>, p: T -> bool, q: T -> bool)
    requires forall x | x in s :: p(x) == q(x)
    ensures Filter(s, p) == Filter(s, q)
  {
    if s != [] {
      FilterAgree(s[1..], p, q);
    }
  }

  /** When every element passes, filtering keeps the whole sequence. */
  lemma {:induction false} FilterKeepsAll<T(!new)>(s: seq<T>, keep: T -> bool)
    requires forall i | 0 <= i < |s| :: keep(s[i])
    ensures Filter(s, keep) == s
  {
    if s != [] {
      assert forall i | 0 <= i < |s[1..]| :: s[1..][i] == s[i + 1];
      FilterKeepsAll(s[1..], keep);
      assert [s[0]] + s[1..] == s;
    }
  }

  /** Filtering distributes over concatenation. */
  lemma {:induction false} FilterAppend<T(!new)>(a: seq<T>, b: seq<T>, keep: T -> bool)
    ensures Filter(a + b, keep) == Filter(a, keep) + Filter(b, keep)
  {
    if a == [] {
      assert a + b == b;
    } else {
      assert (a + b)[0] == a[0] && (a + b)[1..] == a[1..] + b;
      FilterAppend(a[1..], b, keep);
    }
  }
}
