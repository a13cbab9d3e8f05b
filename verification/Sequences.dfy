// Facts about sequences without repetitions.
module Sequences {

  ghost predicate Distinct<T>(s: seq<T>) {
    forall i, j :: 0 <= i < j < |s| ==> s[i] != s[j]
  }

  ghost function Elements<T>(s: seq<T>): set<T> {
    set x | x in s
  }

  lemma {:induction false} DistinctSize<T>(s: seq<T>)
    requires Distinct(s)
    ensures |set x | x in s| == |s|
  {
    if s != [] {
      DistinctSize(s[1..]);
      assert s[0] !in s[1..];
      assert (set x | x in s) == (set x | x in s[1..]) + {s[0]};
    }
  }

  lemma DistinctAfterRemoval<T>(s: seq<T>, p: nat)
    requires Distinct(s) && p < |s|
    ensures Distinct(s[..p] + s[p + 1..])
    ensures forall x :: x in s && x != s[p] ==> x in s[..p] + s[p + 1..]
    ensures s[p] !in s[..p] + s[p + 1..]
  {
  }

  lemma {:induction false} BoundedSize(s: set<nat>, n: nat)
    requires forall x :: x in s ==> x < n
    ensures |s| <= n
  {
    if n > 0 {
      BoundedSize(s - {n - 1}, n - 1);
      assert n - 1 in s ==> s == s - {n - 1} + {n - 1};
      assert n - 1 !in s ==> s == s - {n - 1};
    } else {
      assert s == {};
    }
  }

  // Numbers below n, without repetition and with one missing, are fewer
  // than n.
  lemma FewerThan(s: seq<nat>, n: nat, missing: nat)
    requires Distinct(s) && missing < n && missing !in s && forall x :: x in s ==> x < n
    ensures |s| < n
  {
    var members := set x | x in s;
    DistinctSize(s);
    assert |members + {missing}| == |s| + 1;
    BoundedSize(members + {missing}, n);
  }

  // A sequence has as many members as positions exactly when it repeats none.
  lemma {:induction false} MembersAtMost<T>(s: seq<T>)
    ensures |set x | x in s| <= |s|
    ensures |set x | x in s| == |s| <==> Distinct(s)
  {
    if s != [] {
      MembersAtMost(s[1..]);
      var all, rest := set x | x in s, set x | x in s[1..];
      assert all == rest + {s[0]};
      if s[0] in s[1..] {
        assert all == rest;
      }
      assert Distinct(s) <==> Distinct(s[1..]) && s[0] !in s[1..];
    }
  }

  lemma SubsetSize<T>(a: set<T>, b: set<T>)
    ensures a <= b ==> |a| <= |b| && (|a| == |b| ==> a == b)
  {
    if a <= b {
      assert b == a + (b - a);
    }
  }

  lemma {:induction false} DistinctMultiplicity<T>(s: seq<T>, x: T)
    requires Distinct(s)
    ensures multiset(s)[x] == if x in s then 1 else 0
  {
    if s != [] {
      DistinctMultiplicity(s[1..], x);
      assert s == [s[0]] + s[1..];
    }
  }

  function Fold<A, T>(f: (A, T) -> A, start: A, s: seq<T>): A
    decreases |s|
  {
    if s == [] then start else Fold(f, f(start, s[0]), s[1..])
  }

  // Two neighbouring elements may be swapped.
  ghost predicate Swappable<A(!new), T(!new)>(f: (A, T) -> A) {
    forall h, x, y :: f(f(h, x), y) == f(f(h, y), x)
  }

  lemma {:induction false} FoldInsert<A(!new), T(!new)>(f: (A, T) -> A, h: A, a: seq<T>, x: T, b: seq<T>)
    requires Swappable(f)
    ensures Fold(f, h, a + [x] + b) == Fold(f, f(h, x), a + b)
    decreases |a|
  {
    if a == [] {
      assert a + [x] + b == [x] + b && a + b == b;
    } else {
      assert (a + [x] + b)[1..] == a[1..] + [x] + b && (a + b)[1..] == a[1..] + b;
      FoldInsert(f, f(h, a[0]), a[1..], x, b);
      assert f(f(h, a[0]), x) == f(f(h, x), a[0]);
    }
  }

  lemma WithoutOne<T>(s: seq<T>, i: nat)
    requires i < |s|
    ensures s == s[..i] + [s[i]] + s[i + 1..]
    ensures multiset(s[..i] + s[i + 1..]) == multiset(s) - multiset{s[i]}
  {
    assert s == s[..i] + [s[i]] + s[i + 1..];
  }

  // Where the first element of a stands in b, another order of a.
  lemma FindFirst<T>(a: seq<T>, b: seq<T>) returns (i: nat)
    requires a != [] && multiset(a) == multiset(b)
    ensures i < |b| && b == b[..i] + [a[0]] + b[i + 1..]
    ensures multiset(a[1..]) == multiset(b[..i] + b[i + 1..])
  {
    assert a[0] in multiset(a);
    assert a[0] in b;
    i :| 0 <= i < |b| && b[i] == a[0];
    WithoutOne(a, 0);
    WithoutOne(b, i);
    assert a[..0] + a[1..] == a[1..];
  }

  // A fold whose elements may be swapped does not depend on their order.
  lemma {:induction false} FoldOrderIndependent<A(!new), T(!new)>(f: (A, T) -> A, h: A, a: seq<T>, b: seq<T>)
    requires Swappable(f) && multiset(a) == multiset(b)
    ensures Fold(f, h, a) == Fold(f, h, b)
    decreases |a|
  {
    if a == [] {
      assert |multiset(b)| == 0;
    } else {
      var i := FindFirst(a, b);
      FoldOrderIndependent(f, f(h, a[0]), a[1..], b[..i] + b[i + 1..]);
      FoldInsert(f, h, b[..i], a[0], b[i + 1..]);
    }
  }

  lemma ConcatAssociative<T>(a: seq<T>, b: seq<T>, c: seq<T>)
    ensures a + (b + c) == a + b + c
  {
  }

  lemma SuffixSplits<T>(a: seq<T>, x: T, s: seq<T>)
    requires a + [x] <= s
    ensures s[|a|..] == [x] + s[|a| + 1..]
  {
    assert s[|a|] == (a + [x])[|a|];
  }

  // Comparison of two lists.
  method SameList<T(==)>(a: seq<T>, b: seq<T>) returns (same: bool)
    ensures same <==> a == b
  {
    if |a| != |b| {
      return false;
    }
    for i := 0 to |a|
      invariant forall j :: 0 <= j < i ==> a[j] == b[j]
    {
      if a[i] != b[i] {
        return false;
      }
    }
    return true;
  }
}
