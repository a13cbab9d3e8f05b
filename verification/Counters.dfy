// Counter: a dict of counts with multiset operations
// (src/scalarizr/externals/collections.py).
module Counters {

  type Counts<T> = map<T, int>

  // A missing element counts zero.
  function Get<T>(c: Counts<T>, x: T): int {
    if x in c then c[x] else 0
  }

  // Counts below one are never kept by the operators.
  ghost predicate AllPositive<T>(c: Counts<T>) {
    forall x :: x in c ==> c[x] > 0
  }

  ghost function PositivePart<T>(c: Counts<T>): Counts<T> {
    map x | x in c && c[x] > 0 :: c[x]
  }

  // op applied to the counts of every element of either counter.
  ghost function Pointwise<T>(a: Counts<T>, b: Counts<T>, op: (int, int) -> int): Counts<T> {
    map x | x in a.Keys + b.Keys :: op(Get(a, x), Get(b, x))
  }

  const PLUS: (int, int) -> int := (p, q) => p + q
  const MINUS: (int, int) -> int := (p, q) => p - q
  const MAX: (int, int) -> int := (p, q) => if p < q then q else p
  const MIN: (int, int) -> int := (p, q) => if p < q then p else q

  function Positive(n: int): nat {
    if n > 0 then n else 0
  }

  // The value of an operator.
  ghost function Result<T>(a: Counts<T>, b: Counts<T>, op: (int, int) -> int): Counts<T> {
    PositivePart(Pointwise(a, b, op))
  }

  lemma ResultAt<T>(a: Counts<T>, b: Counts<T>, op: (int, int) -> int, x: T)
    requires op(0, 0) == 0
    ensures Get(Result(a, b, op), x) == Positive(op(Get(a, x), Get(b, x)))
    ensures x in Result(a, b, op) <==> op(Get(a, x), Get(b, x)) > 0
  {
    assert x in Pointwise(a, b, op) <==> x in a.Keys + b.Keys;
  }

  // --- Laws of the operators

  // No element is counted positive in one counter and negative in the other.
  ghost predicate Unopposed<T>(a: Counts<T>, b: Counts<T>) {
    forall x :: x in a && x in b ==> !(a[x] > 0 > b[x]) && !(a[x] < 0 < b[x])
  }

  // The counter holds the positive parts of p and q together for x.
  ghost predicate SumAt<T>(c: Counts<T>, p: int, q: int, x: T) {
    Get(c, x) == Positive(p) + Positive(q) && (x in c <==> Get(c, x) > 0)
  }

  lemma CountOfSum<T>(a: Counts<T>, b: Counts<T>, f: (int, int) -> int, g: (int, int) -> int, x: T)
    requires f(0, 0) == 0 && g(0, 0) == 0
    ensures SumAt(Result(Result(a, b, f), Result(a, b, g), PLUS), f(Get(a, x), Get(b, x)), g(Get(a, x), Get(b, x)), x)
  {
    ResultAt(a, b, f, x);
    ResultAt(a, b, g, x);
    ResultAt(Result(a, b, f), Result(a, b, g), PLUS, x);
  }

  lemma SameGets<T(!new)>(c: Counts<T>, d: Counts<T>)
    requires forall x :: x in c <==> x in d
    requires forall x :: Get(c, x) == Get(d, x)
    ensures c == d
  {
    forall x | x in c
      ensures c[x] == d[x]
    {
      assert Get(c, x) == Get(d, x);
    }
  }

  lemma SameUnlessOpposed<T(!new)>(a: Counts<T>, b: Counts<T>, left: Counts<T>, right: Counts<T>)
    requires forall x :: SumAt(left, MAX(Get(a, x), Get(b, x)), MIN(Get(a, x), Get(b, x)), x)
    requires forall x :: SumAt(right, Get(a, x) + Get(b, x), 0, x)
    ensures left == right <==> Unopposed(a, b)
  {
    if Unopposed(a, b) {
      forall x: T
        ensures Get(left, x) == Get(right, x) && (x in left <==> x in right)
      {
        assert SumAt(left, MAX(Get(a, x), Get(b, x)), MIN(Get(a, x), Get(b, x)), x);
        assert SumAt(right, Get(a, x) + Get(b, x), 0, x);
      }
      SameGets(left, right);
    } else {
      var x :| x in a && x in b && ((a[x] > 0 > b[x]) || (a[x] < 0 < b[x]));
      assert SumAt(left, MAX(Get(a, x), Get(b, x)), MIN(Get(a, x), Get(b, x)), x);
      assert SumAt(right, Get(a, x) + Get(b, x), 0, x);
    }
  }

  // (a | b) + (a & b) == a + b exactly when no counts are opposed.
  lemma UnionPlusIntersection<T(!new)>(a: Counts<T>, b: Counts<T>)
    ensures Result(Result(a, b, MAX), Result(a, b, MIN), PLUS) == Result(a, b, PLUS) <==> Unopposed(a, b)
  {
    forall x: T
      ensures SumAt(Result(Result(a, b, MAX), Result(a, b, MIN), PLUS),
                    MAX(Get(a, x), Get(b, x)), MIN(Get(a, x), Get(b, x)), x)
      ensures SumAt(Result(a, b, PLUS), Get(a, x) + Get(b, x), 0, x)
    {
      CountOfSum(a, b, MAX, MIN, x);
      ResultAt(a, b, PLUS, x);
    }
    SameUnlessOpposed(a, b, Result(Result(a, b, MAX), Result(a, b, MIN), PLUS), Result(a, b, PLUS));
  }

  lemma RestoredIfPositive<T(!new)>(a: Counts<T>, b: Counts<T>, left: Counts<T>)
    requires forall x :: SumAt(left, Get(a, x) - Get(b, x), MIN(Get(a, x), Get(b, x)), x)
    ensures left == a <==> AllPositive(a) && forall x :: x in b ==> b[x] >= 0
  {
    if AllPositive(a) && forall x :: x in b ==> b[x] >= 0 {
      forall x: T
        ensures Get(left, x) == Get(a, x) && (x in left <==> x in a)
      {
        assert SumAt(left, Get(a, x) - Get(b, x), MIN(Get(a, x), Get(b, x)), x);
      }
      SameGets(left, a);
    } else if x :| x in b && b[x] < 0 {
      assert SumAt(left, Get(a, x) - Get(b, x), MIN(Get(a, x), Get(b, x)), x);
      assert Get(left, x) != Get(a, x);
    } else {
      var x :| x in a && a[x] <= 0;
      assert SumAt(left, Get(a, x) - Get(b, x), MIN(Get(a, x), Get(b, x)), x);
      assert x !in left;
    }
  }

  // (a - b) + (a & b) == a exactly when a holds positive counts only and b no
  // negative one.
  lemma DifferencePlusIntersection<T(!new)>(a: Counts<T>, b: Counts<T>)
    ensures Result(Result(a, b, MINUS), Result(a, b, MIN), PLUS) == a
       <==> AllPositive(a) && forall x :: x in b ==> b[x] >= 0
  {
    forall x: T
      ensures SumAt(Result(Result(a, b, MINUS), Result(a, b, MIN), PLUS),
                    Get(a, x) - Get(b, x), MIN(Get(a, x), Get(b, x)), x)
    {
      CountOfSum(a, b, MINUS, MIN, x);
    }
    RestoredIfPositive(a, b, Result(Result(a, b, MINUS), Result(a, b, MIN), PLUS));
  }

  // The first law fails for 3 and -5, and holds for -3 and -5.
  lemma OpposedCountsBreakTheLaw()
    ensures var a, b := map[0 := 3], map[0 := -5];
            Result(Result(a, b, MAX), Result(a, b, MIN), PLUS) != Result(a, b, PLUS)
    ensures var a, b := map[0 := -3], map[0 := -5];
            Result(Result(a, b, MAX), Result(a, b, MIN), PLUS) == Result(a, b, PLUS)
  {
    var three, five := map[0 := 3], map[0 := -5];
    assert 0 in three && 0 in five && three[0] > 0 > five[0];
    UnionPlusIntersection(three, five);
    UnionPlusIntersection(map[0 := -3], five);
  }

  // Subtracting what was added restores every count.
  lemma SubtractUndoesUpdate<T>(c: Counts<T>, d: Counts<T>, x: T)
    ensures Get(Pointwise(Pointwise(c, d, PLUS), d, MINUS), x) == Get(c, x)
  {
  }

  // --- The operators

  // The loop of +, - and |: over the elements of both counters in any order.
  method Combine<T(==)>(a: Counts<T>, b: Counts<T>, op: (int, int) -> int) returns (result: Counts<T>)
    ensures result == Result(a, b, op)
  {
    result := map[];
    var elems := a.Keys + b.Keys;
    var unseen := elems;
    while unseen != {}
      invariant unseen <= elems
      invariant forall x :: x in result <==> x in elems - unseen && op(Get(a, x), Get(b, x)) > 0
      invariant forall x :: x in result ==> result[x] == op(Get(a, x), Get(b, x))
      decreases unseen
    {
      var elem :| elem in unseen;
      unseen := unseen - {elem};
      var newcount := op(Get(a, elem), Get(b, elem));
      if newcount > 0 {
        result := result[elem := newcount];
      }
    }
  }

  method Add<T(==)>(a: Counts<T>, b: Counts<T>) returns (result: Counts<T>)
    ensures result == Result(a, b, PLUS)
  {
    result := Combine(a, b, PLUS);
  }

  method Sub<T(==)>(a: Counts<T>, b: Counts<T>) returns (result: Counts<T>)
    ensures result == Result(a, b, MINUS)
  {
    result := Combine(a, b, MINUS);
  }

  method Or<T(==)>(a: Counts<T>, b: Counts<T>) returns (result: Counts<T>)
    ensures result == Result(a, b, MAX)
  {
    result := Combine(a, b, MAX);
  }

  // The loop of & runs over the smaller counter only.
  method And<T(==)>(a: Counts<T>, b: Counts<T>) returns (result: Counts<T>)
    ensures result == Result(a, b, MIN)
  {
    var self, other := a, b;
    if |self| < |other| {
      self, other := other, self;
    }
    result := map[];
    var elems := set x | x in other && x in self;
    var unseen := elems;
    while unseen != {}
      invariant unseen <= elems
      invariant forall x :: x in result <==> x in elems - unseen && MIN(Get(a, x), Get(b, x)) > 0
      invariant forall x :: x in result ==> result[x] == MIN(Get(a, x), Get(b, x))
      decreases unseen
    {
      var elem :| elem in unseen;
      unseen := unseen - {elem};
      var p, q := self[elem], other[elem];
      var newcount := if p < q then p else q;
      if newcount > 0 {
        result := result[elem := newcount];
      }
    }
  }

  // --- The counter object

  // Each element seen is repeated as often as its count says, and no other
  // occurs.
  ghost predicate Repeats<T>(c: Counts<T>, seen: set<T>, elems: seq<T>) {
    && (forall x :: x in elems ==> x in seen)
    && (forall x :: x in seen && x in c ==> multiset(elems)[x] == Positive(c[x]))
  }

  function Repeat<T>(x: T, n: nat): seq<T> {
    if n == 0 then [] else Repeat(x, n - 1) + [x]
  }

  lemma {:induction false} RepeatCounts<T>(x: T, n: nat)
    ensures multiset(Repeat(x, n)) == multiset{}[x := n]
  {
    if n > 0 {
      RepeatCounts(x, n - 1);
    }
  }

  lemma RepeatsOneMore<T>(c: Counts<T>, unseen: set<T>, elem: T, elems: seq<T>)
    requires elem in unseen && unseen <= c.Keys && Repeats(c, c.Keys - unseen, elems)
    ensures Repeats(c, c.Keys - (unseen - {elem}), elems + Repeat(elem, Positive(c[elem])))
  {
    var more := Repeat(elem, Positive(c[elem]));
    RepeatCounts(elem, Positive(c[elem]));
    forall x | x in elems + more
      ensures x in c.Keys - (unseen - {elem})
    {
      assert x in elems || x in multiset(more);
    }
    forall x | x in c.Keys - (unseen - {elem})
      ensures multiset(elems + more)[x] == Positive(c[x])
    {
      assert multiset(elems + more)[x] == multiset(elems)[x] + multiset(more)[x];
      if x == elem {
        assert x !in multiset(elems);
      }
    }
  }

  class Counter<T(==)> {
    var counts: Counts<T>

    constructor ()
      ensures counts == map[]
    {
      counts := map[];
    }

    // update() with a mapping; the fast path for an empty counter gives what
    // the loop would.
    method Update(other: Counts<T>)
      modifies this
      ensures counts == Pointwise(old(counts), other, PLUS)
    {
      if |counts| != 0 {
        AddAll(other);
      } else {
        counts := counts + other;
      }
    }

    method AddAll(other: Counts<T>)
      modifies this
      ensures counts == Pointwise(old(counts), other, PLUS)
    {
      var unseen := other.Keys;
      while unseen != {}
        invariant unseen <= other.Keys
        invariant counts.Keys == old(counts).Keys + (other.Keys - unseen)
        invariant forall x :: x in counts ==>
                    counts[x] == Get(old(counts), x) + (if x in unseen then 0 else Get(other, x))
        decreases unseen
      {
        var elem :| elem in unseen;
        unseen := unseen - {elem};
        counts := counts[elem := Get(counts, elem) + other[elem]];
      }
    }

    method Subtract(other: Counts<T>)
      modifies this
      ensures counts == Pointwise(old(counts), other, MINUS)
    {
      var unseen := other.Keys;
      while unseen != {}
        invariant unseen <= other.Keys
        invariant counts.Keys == old(counts).Keys + (other.Keys - unseen)
        invariant forall x :: x in counts ==>
                    counts[x] == Get(old(counts), x) - (if x in unseen then 0 else Get(other, x))
        decreases unseen
      {
        var elem :| elem in unseen;
        unseen := unseen - {elem};
        counts := counts[elem := Get(counts, elem) - other[elem]];
      }
    }

    // update() with any other iterable counts its elements.
    method UpdateFrom(elems: seq<T>)
      modifies this
      ensures counts.Keys == old(counts).Keys + set x | x in elems
      ensures forall x :: x in counts ==> counts[x] == Get(old(counts), x) + multiset(elems)[x]
    {
      for i := 0 to |elems|
        invariant counts.Keys == old(counts).Keys + set x | x in elems[..i]
        invariant forall x :: x in counts ==> counts[x] == Get(old(counts), x) + multiset(elems[..i])[x]
      {
        assert elems[..i + 1] == elems[..i] + [elems[i]];
        counts := counts[elems[i] := Get(counts, elems[i]) + 1];
      }
      assert elems[..|elems|] == elems;
    }

    // Every element as often as its count says; none for counts below one.
    method Elements() returns (elems: seq<T>)
      ensures Repeats(counts, counts.Keys, elems)
    {
      elems := [];
      var unseen := counts.Keys;
      while unseen != {}
        invariant unseen <= counts.Keys && Repeats(counts, counts.Keys - unseen, elems)
        decreases unseen
      {
        var elem :| elem in unseen;
        RepeatsOneMore(counts, unseen, elem, elems);
        unseen := unseen - {elem};
        elems := elems + Repeat(elem, Positive(counts[elem]));
      }
      assert counts.Keys - {} == counts.Keys;
    }
  }

  // Counting the elements again gives the positive part of the counter.
  method CountElements<T(==)>(c: Counter<T>) returns (fresh': Counter<T>)
    ensures fresh(fresh') && fresh'.counts == PositivePart(c.counts)
  {
    var elems := c.Elements();
    fresh' := new Counter<T>();
    fresh'.UpdateFrom(elems);
    forall x | x in fresh'.counts
      ensures x in c.counts && c.counts[x] > 0
    {
      assert x in multiset(elems);
    }
    forall x | x in c.counts && c.counts[x] > 0
      ensures x in fresh'.counts
    {
      assert x in multiset(elems);
    }
  }
}
