// The Set and MutableSet mixins: comparison, the order-independent hash and
// symmetric difference in place (src/scalarizr/externals/_abcoll.py).
module AbstractSets {
  import opened Sequences
  import opened Wrappers

  // A set is given by its elements in some order of iteration; the order is
  // the implementation's and carries no meaning.

  const MAX: int := 0x7FFF_FFFF_FFFF_FFFF // sys.maxint

  function Mix(hash: bv64): bv64 {
    (hash ^ (hash << 16) ^ 89869747) * 3644798167
  }

  // One round of the loop of _hash.
  function Round<T>(mix: T -> bv64): (bv64, T) -> bv64 {
    (h, x) => h ^ mix(x)
  }

  function Mixer<T>(hash: T -> bv64): T -> bv64 {
    x => Mix(hash(x))
  }

  function Start(n: nat): bv64 {
    1927868237 * (((n + 1) % 0x1_0000_0000_0000_0000) as bv64)
  }

  function Finish(h: bv64): bv64 {
    h * 69069 + 907133923
  }

  // Bits read as a signed machine integer, -1 being reserved for errors.
  function Signed(n: nat): (r: int)
    requires n <= 2 * MAX + 1
    ensures -MAX - 1 <= r <= MAX && r != -1
  {
    var r := if n > MAX then n - (2 * MAX + 2) else n;
    if r == -1 then 590923713 else r
  }

  function Hash<T>(elems: seq<T>, hash: T -> bv64): (r: int)
    ensures -MAX - 1 <= r <= MAX && r != -1
  {
    Signed(Finish(Fold(Round(Mixer(hash)), Start(|elems|), elems)) as nat)
  }

  // The loop of _hash.
  method ComputeHash<T>(elems: seq<T>, hash: T -> bv64) returns (r: int)
    ensures r == Hash(elems, hash)
  {
    var h := Start(|elems|);
    var round := Round(Mixer(hash));
    for i := 0 to |elems|
      invariant Fold(round, Start(|elems|), elems) == Fold(round, h, elems[i..])
    {
      h := round(h, elems[i]);
    }
    r := Signed(Finish(h) as nat);
  }

  lemma StartOfEmpty()
    ensures Start(0) == 1927868237
  {
    var one := (0 + 1) % 0x1_0000_0000_0000_0000;
    assert one == 1;
    assert one as bv64 == 1;
  }

  lemma StartOfOne()
    ensures Start(1) == 3855736474
  {
    var two := (1 + 1) % 0x1_0000_0000_0000_0000;
    assert two == 2;
    assert two as bv64 == 2;
  }

  lemma SmallRounds()
    ensures Mix(1) == 327318219996883070 && 3855736474 ^ (327318219996883070 as bv64) == 327318217233839844
    ensures Finish(1927868237) == 133156838395276 && Finish(327318217233839844) == 10280455830790589559
  {
  }

  // What the algorithm gives for the empty set, and for a set of one element
  // whose hash is 1.
  lemma SmallHashes(ones: int -> bv64)
    requires ones(0) == 1
    ensures Hash([], ones) == 133156838395276 && Hash([0], ones) == -8166288242918962057
  {
    var round := Round(Mixer(ones));
    StartOfEmpty();
    StartOfOne();
    SmallRounds();
    assert [0][1..] == [];
    assert Fold(round, Start(1), [0]) == round(Start(1), 0);
    assert round(Start(1), 0) == Start(1) ^ Mix(1);
    assert (133156838395276 as bv64) as nat == 133156838395276;
    assert (10280455830790589559 as bv64) as nat == 10280455830790589559;
  }

  lemma TwoRounds<T>(mix: T -> bv64, h: bv64, x: T, y: T)
    ensures Round(mix)(Round(mix)(h, x), y) == (h ^ mix(x)) ^ mix(y)
  {
  }

  lemma RoundsSwap<T(!new)>(mix: T -> bv64)
    ensures Swappable(Round(mix))
  {
    forall h, x, y
      ensures Round(mix)(Round(mix)(h, x), y) == Round(mix)(Round(mix)(h, y), x)
    {
      TwoRounds(mix, h, x, y);
      TwoRounds(mix, h, y, x);
      assert (h ^ mix(x)) ^ mix(y) == (h ^ mix(y)) ^ mix(x);
    }
  }

  // The hash depends on which elements there are, not on their order.
  lemma HashOrderIndependent<T(!new)>(a: seq<T>, b: seq<T>, hash: T -> bv64)
    requires multiset(a) == multiset(b)
    ensures |a| == |b| && Hash(a, hash) == Hash(b, hash)
  {
    assert |multiset(a)| == |multiset(b)|;
    RoundsSwap(Mixer(hash));
    FoldOrderIndependent(Round(Mixer(hash)), Start(|a|), a, b);
  }

  // --- Comparison

  // self <= other; comparing the sizes first never changes the answer.
  method LessOrEqual<T(==)>(self: seq<T>, other: seq<T>) returns (r: bool)
    requires Distinct(self) && Distinct(other)
    ensures r <==> Elements(self) <= Elements(other)
  {
    DistinctSize(self);
    DistinctSize(other);
    SubsetSize(Elements(self), Elements(other));
    if |self| > |other| {
      return false;
    }
    for i := 0 to |self|
      invariant forall k :: 0 <= k < i ==> self[k] in other
    {
      if self[i] !in other {
        assert self[i] in Elements(self) && self[i] !in Elements(other);
        return false;
      }
    }
    return true;
  }

  method Equal<T(==)>(self: seq<T>, other: seq<T>) returns (r: bool)
    requires Distinct(self) && Distinct(other)
    ensures r <==> Elements(self) == Elements(other)
  {
    DistinctSize(self);
    DistinctSize(other);
    SubsetSize(Elements(self), Elements(other));
    if |self| == |other| {
      r := LessOrEqual(self, other);
    } else {
      r := false;
    }
  }

  // Sets that compare equal have the same hash, as __hash__ requires.
  lemma EqualSetsHashAlike<T(!new)>(a: seq<T>, b: seq<T>, hash: T -> bv64)
    requires Distinct(a) && Distinct(b) && Elements(a) == Elements(b)
    ensures Hash(a, hash) == Hash(b, hash)
  {
    forall x
      ensures multiset(a)[x] == multiset(b)[x]
    {
      DistinctMultiplicity(a, x);
      DistinctMultiplicity(b, x);
      assert x in Elements(a) <==> x in Elements(b);
    }
    assert multiset(a) == multiset(b);
    HashOrderIndependent(a, b, hash);
  }

  // --- Symmetric difference in place

  ghost function SymmetricDifference<T>(a: set<T>, b: set<T>): set<T> {
    (a - b) + (b - a)
  }

  // Toggling the same elements twice restores the set.
  lemma ToggledTwice<T>(a: set<T>, b: set<T>)
    ensures SymmetricDifference(SymmetricDifference(a, b), b) == a
  {
  }

  class MutableSet<T(==)> {
    var elems: set<T>

    constructor (elems: set<T>)
      ensures this.elems == elems
    {
      this.elems := elems;
    }

    // pop(): removes and returns some element; None is a KeyError.
    method Pop() returns (r: Option<T>)
      modifies this
      ensures r == None <==> old(elems) == {}
      ensures r.Some? ==> r.value in old(elems)
      ensures elems == if r.Some? then old(elems) - {r.value} else {}
    {
      if elems == {} {
        return None;
      }
      var value :| value in elems;
      elems := elems - {value};
      return Some(value);
    }

    // clear(): pops until nothing is left.
    method Clear()
      modifies this
      ensures elems == {}
    {
      while true
        invariant elems <= old(elems)
        decreases |elems|
      {
        var value := Pop();
        if value == None {
          return;
        }
      }
    }

    // self ^= other, also when other is this very set: then toggling its
    // elements while they are iterated is avoided.
    method Ixor(other: MutableSet<T>)
      modifies this
      ensures elems == SymmetricDifference(old(elems), old(other.elems))
      ensures other != this ==> other.elems == old(other.elems)
    {
      if other == this {
        Clear();
      } else {
        Toggle(other.elems);
      }
    }

    // self ^= it, for any other iterable: its repetitions are dropped first.
    method IxorIterable(it: seq<T>)
      modifies this
      ensures elems == SymmetricDifference(old(elems), Elements(it))
    {
      Toggle(set x | x in it);
    }

    method Toggle(other: set<T>)
      modifies this
      ensures elems == SymmetricDifference(old(elems), other)
    {
      var unseen := other;
      while unseen != {}
        invariant unseen <= other
        invariant elems == SymmetricDifference(old(elems), other - unseen)
        decreases unseen
      {
        var value :| value in unseen;
        unseen := unseen - {value};
        if value in elems {
          elems := elems - {value};
        } else {
          elems := elems + {value};
        }
      }
    }
  }
}
