// OrderedDict: a dict whose insertion order is kept in a circular doubly
// linked list of [PREV, NEXT, KEY] links around a sentinel
// (src/scalarizr/externals/collections.py and the MutableMapping mixin of
// src/scalarizr/externals/_abcoll.py).
module OrderedDicts {
  import opened Sequences
  import opened Wrappers

  // --- What an ordered dictionary means: its keys in order, and their values

  datatype Contents<K, V> = Contents(order: seq<K>, dict: map<K, V>)

  ghost predicate WellFormed<K, V>(s: Contents<K, V>) {
    Distinct(s.order) && s.dict.Keys == (set k | k in s.order)
  }

  function Without<K(==)>(s: seq<K>, k: K): seq<K> {
    if s == [] then [] else (if s[0] == k then [] else [s[0]]) + Without(s[1..], k)
  }

  function Reverse<T>(s: seq<T>): seq<T> {
    if s == [] then [] else Reverse(s[1..]) + [s[0]]
  }

  function Put<K, V>(s: Contents<K, V>, k: K, v: V): Contents<K, V> {
    Contents(if k in s.dict then s.order else s.order + [k], s.dict[k := v])
  }

  function Delete<K, V>(s: Contents<K, V>, k: K): Contents<K, V> {
    Contents(Without(s.order, k), s.dict - {k})
  }

  function PutAll<K, V>(s: Contents<K, V>, items: seq<(K, V)>): Contents<K, V> {
    if items == [] then s
    else
      var last := items[|items| - 1];
      Put(PutAll(s, items[..|items| - 1]), last.0, last.1)
  }

  lemma {:induction false} WithoutAbsent<K>(s: seq<K>, k: K)
    requires k !in s
    ensures Without(s, k) == s
  {
    if s != [] {
      WithoutAbsent(s[1..], k);
    }
  }

  lemma {:induction false} WithoutAt<K>(s: seq<K>, k: K, p: nat)
    requires Distinct(s) && p < |s| && s[p] == k
    ensures Without(s, k) == s[..p] + s[p + 1..]
  {
    if p == 0 {
      WithoutAbsent(s[1..], k);
    } else {
      WithoutAt(s[1..], k, p - 1);
      assert s[1..][..p - 1] == s[1..p];
      assert s[..p] == [s[0]] + s[1..p];
    }
  }

  // --- Operations and runs

  datatype Op<K, V> =
    | OpSet(key: K, value: V)
    | OpDelete(key: K)
    | OpPop(key: K, default: Option<V>)
    | OpPopItem(last: bool)
    | OpSetDefault(key: K, value: V)
    | OpUpdate(items: seq<(K, V)>)
    | OpClear
    | OpIter
    | OpReversed

  datatype Output<K, V> = Done | Got(value: V) | Pair(key: K, val: V) | Keys(keys: seq<K>) | KeyError

  ghost function Step<K, V>(s: Contents<K, V>, op: Op<K, V>): (Contents<K, V>, Output<K, V>)
    requires WellFormed(s)
  {
    match op
    case OpSet(k, v) => (Put(s, k, v), Done)
    case OpDelete(k) => if k in s.dict then (Delete(s, k), Done) else (s, KeyError)
    case OpPop(k, default) =>
      if k in s.dict then (Delete(s, k), Got(s.dict[k]))
      else (s, if default.Some? then Got(default.value) else KeyError)
    case OpPopItem(last) =>
      if s.order == [] then (s, KeyError)
      else
        var k := if last then s.order[|s.order| - 1] else s.order[0];
        assert k in s.order;
        (Delete(s, k), Pair(k, s.dict[k]))
    case OpSetDefault(k, v) => if k in s.dict then (s, Got(s.dict[k])) else (Put(s, k, v), Got(v))
    case OpUpdate(items) => (PutAll(s, items), Done)
    case OpClear => (Contents([], map[]), Done)
    case OpIter => (s, Keys(s.order))
    case OpReversed => (s, Keys(Reverse(s.order)))
  }

  lemma {:induction false} WithoutMember<K>(s: seq<K>, k: K, x: K)
    ensures x in Without(s, k) <==> x in s && x != k
  {
    if s != [] {
      WithoutMember(s[1..], k, x);
    }
  }

  lemma {:induction false} WithoutDistinct<K>(s: seq<K>, k: K)
    requires Distinct(s)
    ensures Distinct(Without(s, k))
  {
    if s != [] {
      WithoutDistinct(s[1..], k);
      WithoutMember(s[1..], k, s[0]);
    }
  }

  lemma DeleteKeepsWellFormed<K, V>(s: Contents<K, V>, k: K)
    requires WellFormed(s)
    ensures WellFormed(Delete(s, k))
  {
    WithoutDistinct(s.order, k);
    forall x | x in s.dict
      ensures x in Without(s.order, k) <==> x != k
    {
      WithoutMember(s.order, k, x);
    }
    forall x | x in Without(s.order, k)
      ensures x in s.dict && x != k
    {
      WithoutMember(s.order, k, x);
    }
  }

  lemma {:induction false} PutAllKeepsWellFormed<K, V>(s: Contents<K, V>, items: seq<(K, V)>)
    requires WellFormed(s)
    ensures WellFormed(PutAll(s, items))
  {
    if items != [] {
      PutAllKeepsWellFormed(s, items[..|items| - 1]);
    }
  }

  lemma StepKeepsWellFormed<K, V>(s: Contents<K, V>, op: Op<K, V>)
    requires WellFormed(s)
    ensures WellFormed(Step(s, op).0)
  {
    forall k | k in s.dict
      ensures WellFormed(Delete(s, k))
    {
      DeleteKeepsWellFormed(s, k);
    }
    if op.OpUpdate? {
      PutAllKeepsWellFormed(s, op.items);
    }
  }

  ghost function Run<K, V>(ops: seq<Op<K, V>>): (r: (Contents<K, V>, seq<Output<K, V>>))
    ensures WellFormed(r.0)
  {
    if ops == [] then (Contents([], map[]), [])
    else
      var (s, outputs) := Run(ops[..|ops| - 1]);
      var (s', output) := Step(s, ops[|ops| - 1]);
      StepKeepsWellFormed(s, ops[|ops| - 1]);
      (s', outputs + [output])
  }

  // --- What the operations promise

  // a comes before b.
  ghost predicate Before<K(!new)>(s: seq<K>, a: K, b: K) {
    exists i, j :: 0 <= i < j < |s| && s[i] == a && s[j] == b
  }

  lemma PlaceAfterRemoval<K>(s: seq<K>, p: nat, i: nat)
    requires p < |s| && i < |s| - 1
    ensures (s[..p] + s[p + 1..])[i] == s[if i < p then i else i + 1]
  {
  }

  lemma BeforeRemoval<K(!new)>(s: seq<K>, p: nat, a: K, b: K)
    requires Distinct(s) && p < |s| && Before(s[..p] + s[p + 1..], a, b)
    ensures Before(s, a, b) && a != s[p] && b != s[p]
  {
    var t := s[..p] + s[p + 1..];
    var i: nat, j: nat :| i < j < |t| && t[i] == a && t[j] == b;
    PlaceAfterRemoval(s, p, i);
    PlaceAfterRemoval(s, p, j);
  }

  lemma AfterRemoval<K(!new)>(s: seq<K>, p: nat, a: K, b: K)
    requires p < |s| && Before(s, a, b) && a != s[p] && b != s[p]
    ensures Before(s[..p] + s[p + 1..], a, b)
  {
    var t := s[..p] + s[p + 1..];
    var i: nat, j: nat :| i < j < |s| && s[i] == a && s[j] == b;
    var i', j' := if i < p then i else i - 1, if j < p then j else j - 1;
    PlaceAfterRemoval(s, p, i');
    PlaceAfterRemoval(s, p, j');
    assert t[i'] == a && t[j'] == b;
  }

  lemma BeforeAfterRemoval<K(!new)>(s: seq<K>, p: nat, a: K, b: K)
    requires Distinct(s) && p < |s|
    ensures Before(s[..p] + s[p + 1..], a, b) <==> Before(s, a, b) && a != s[p] && b != s[p]
  {
    if Before(s[..p] + s[p + 1..], a, b) {
      BeforeRemoval(s, p, a, b);
    }
    if Before(s, a, b) && a != s[p] && b != s[p] {
      AfterRemoval(s, p, a, b);
    }
  }

  // Deleting a key keeps the order of the rest.
  lemma DeleteKeepsOrder<K(!new), V(!new)>(s: Contents<K, V>, k: K, a: K, b: K)
    requires WellFormed(s) && k in s.dict
    ensures Before(Delete(s, k).order, a, b) <==> Before(s.order, a, b) && a != k && b != k
  {
    var p :| 0 <= p < |s.order| && s.order[p] == k;
    WithoutAt(s.order, k, p);
    BeforeAfterRemoval(s.order, p, a, b);
  }

  ghost predicate Mentions<K, V>(items: seq<(K, V)>, k: K) {
    exists i :: 0 <= i < |items| && items[i].0 == k
  }

  // After update() a key has the last value given for it, and otherwise its
  // old one; the old keys keep their places and the new ones follow.
  lemma {:induction false} PutAllMeans<K, V>(s: Contents<K, V>, items: seq<(K, V)>)
    requires WellFormed(s)
    ensures s.order <= PutAll(s, items).order
    ensures forall k :: k in PutAll(s, items).order[|s.order|..] ==> Mentions(items, k)
    ensures forall k :: k in s.dict && !Mentions(items, k) ==>
              k in PutAll(s, items).dict && PutAll(s, items).dict[k] == s.dict[k]
    ensures forall i :: 0 <= i < |items| && !Mentions(items[i + 1..], items[i].0) ==>
              items[i].0 in PutAll(s, items).dict && PutAll(s, items).dict[items[i].0] == items[i].1
  {
    if items != [] {
      var n := |items| - 1;
      PutAllMeans(s, items[..n]);
      var t, t' := PutAll(s, items[..n]), PutAll(s, items);
      forall k | k in t'.order[|s.order|..]
        ensures Mentions(items, k)
      {
        if k in t.order[|s.order|..] {
          assert Mentions(items[..n], k);
        }
      }
      forall k | k in s.dict && !Mentions(items, k)
        ensures k in t'.dict && t'.dict[k] == s.dict[k]
      {
        assert !Mentions(items[..n], k);
      }
      forall i | 0 <= i < |items| && !Mentions(items[i + 1..], items[i].0)
        ensures items[i].0 in t'.dict && t'.dict[items[i].0] == items[i].1
      {
        if i < n {
          assert items[i + 1..][n - i - 1] == items[n];
          assert items[..n][i + 1..] == items[i + 1..][..n - i - 1];
          assert !Mentions(items[..n][i + 1..], items[i].0);
        }
      }
    }
  }

  lemma {:induction false} ReverseAt<T>(s: seq<T>, i: nat)
    requires i < |s|
    ensures |Reverse(s)| == |s| && Reverse(s)[|s| - 1 - i] == s[i]
  {
    if i > 0 {
      ReverseAt(s[1..], i - 1);
    } else if |s| > 1 {
      ReverseAt(s[1..], 0);
    }
  }

  lemma {:induction false} ReverseFromEnd<T>(s: seq<T>)
    requires s != []
    ensures Reverse(s) == [s[|s| - 1]] + Reverse(s[..|s| - 1])
  {
    var n := |s| - 1;
    if n > 0 {
      ReverseFromEnd(s[1..]);
      assert s[1..][..n - 1] == s[..n][1..];
      ConcatAssociative([s[n]], Reverse(s[..n][1..]), [s[0]]);
    }
  }

  lemma PopItemTakesEnd<K, V>(s: Contents<K, V>, last: bool)
    requires WellFormed(s) && s.order != []
    ensures var n := |s.order| - 1;
            var (t, out) := Step(s, OpPopItem(last));
            && WellFormed(t)
            && out.Pair? && out.key == (if last then s.order[n] else s.order[0])
            && out.key in s.dict && out.val == s.dict[out.key] && t.dict == s.dict - {out.key}
            && t.order == if last then s.order[..n] else s.order[1..]
  {
    var n := |s.order| - 1;
    StepKeepsWellFormed(s, OpPopItem(last));
    WithoutAt(s.order, if last then s.order[n] else s.order[0], if last then n else 0);
  }

  // popitem() undoes the insertion of a new key.
  lemma PopItemUndoesPut<K, V>(s: Contents<K, V>, k: K, v: V)
    requires WellFormed(s) && k !in s.dict
    ensures WellFormed(Put(s, k, v))
    ensures var (t, out) := Step(Put(s, k, v), OpPopItem(true)); t == s && out == Pair(k, v)
  {
    var put := Put(s, k, v);
    assert WellFormed(put);
    PopItemTakesEnd(put, true);
    assert put.order[..|s.order|] == s.order;
    assert put.dict - {k} == s.dict;
  }

  // Calling popitem() until it fails.
  ghost function Drain<K, V>(s: Contents<K, V>, last: bool): seq<K>
    requires WellFormed(s)
    decreases |s.order|
  {
    if s.order == [] then []
    else
      var (t, out) := Step(s, OpPopItem(last));
      PopItemTakesEnd(s, last);
      [out.key] + Drain(t, last)
  }

  // Draining from the front yields the keys in order, from the back in
  // reverse order.
  lemma {:induction false} DrainOrder<K, V>(s: Contents<K, V>, last: bool)
    requires WellFormed(s)
    ensures Drain(s, last) == if last then Reverse(s.order) else s.order
    decreases |s.order|
  {
    if s.order != [] {
      PopItemTakesEnd(s, last);
      DrainOrder(Step(s, OpPopItem(last)).0, last);
      if last {
        ReverseFromEnd(s.order);
      }
    }
  }

  // The (key, value) pairs in order, as items() lists them.
  ghost predicate ItemsOf<K, V>(s: Contents<K, V>, items: seq<(K, V)>) {
    && |items| == |s.order|
    && forall i :: 0 <= i < |s.order| ==> s.order[i] in s.dict && items[i] == (s.order[i], s.dict[s.order[i]])
  }

  // Comparing two ordered dictionaries pair by pair decides their equality,
  // order included.
  lemma ItemsDetermine<K, V>(s: Contents<K, V>, t: Contents<K, V>, items: seq<(K, V)>, items': seq<(K, V)>)
    requires WellFormed(s) && WellFormed(t) && ItemsOf(s, items) && ItemsOf(t, items')
    ensures items == items' <==> s == t
  {
    if items == items' {
      forall i | 0 <= i < |s.order|
        ensures s.order[i] == t.order[i] && s.dict[s.order[i]] == t.dict[t.order[i]]
      {
        assert items[i] == items'[i];
      }
      assert s.order == t.order;
      assert s.dict.Keys == t.dict.Keys;
      forall k | k in s.dict
        ensures s.dict[k] == t.dict[k]
      {
        var i :| 0 <= i < |s.order| && s.order[i] == k;
      }
    }
    if s == t {
      forall i | 0 <= i < |items|
        ensures items[i] == items'[i]
      {
      }
    }
  }

  // --- What the outputs say

  // The output of one more operation after a run.
  ghost function Next<K, V>(ops: seq<Op<K, V>>, op: Op<K, V>): Output<K, V> {
    var outputs := Run(ops + [op]).1;
    if outputs == [] then Done else outputs[|outputs| - 1]
  }

  // What iterating gives after a run, and what pop(k) does.
  ghost function Order<K, V>(ops: seq<Op<K, V>>): seq<K> {
    var output := Next(ops, OpIter);
    if output.Keys? then output.keys else []
  }

  ghost function ValueOf<K, V>(ops: seq<Op<K, V>>, k: K): Option<V> {
    var output := Next(ops, OpPop(k, None));
    if output.Got? then Some(output.value) else None
  }

  lemma OneMore<K, V>(ops: seq<Op<K, V>>, op: Op<K, V>)
    ensures Run(ops + [op]).0 == Step(Run(ops).0, op).0
    ensures Run(ops + [op]).1 == Run(ops).1 + [Next(ops, op)] && Next(ops, op) == Step(Run(ops).0, op).1
  {
    assert (ops + [op])[..|ops|] == ops;
  }

  lemma ObservedOrder<K, V>(ops: seq<Op<K, V>>)
    ensures Order(ops) == Run(ops).0.order
  {
    OneMore(ops, OpIter);
    assert Step(Run(ops).0, OpIter).1 == Keys(Run(ops).0.order);
  }

  lemma ObservedValue<K, V>(ops: seq<Op<K, V>>, k: K)
    ensures ValueOf(ops, k) == if k in Run(ops).0.dict then Some(Run(ops).0.dict[k]) else None
  {
    var op: Op<K, V> := OpPop(k, None);
    OneMore(ops, op);
    assert Step(Run(ops).0, op).1 == if k in Run(ops).0.dict then Got(Run(ops).0.dict[k]) else KeyError;
  }

  lemma Observed<K, V>(ops: seq<Op<K, V>>, k: K)
    ensures Order(ops) == Run(ops).0.order
    ensures ValueOf(ops, k) == if k in Run(ops).0.dict then Some(Run(ops).0.dict[k]) else None
  {
    ObservedOrder(ops);
    ObservedValue(ops, k);
  }

  // The order lists each key that has a value once.
  lemma OrderListsKeys<K(!new), V(!new)>(ops: seq<Op<K, V>>, k: K)
    ensures Distinct(Order(ops)) && (k in Order(ops) <==> ValueOf(ops, k).Some?)
  {
    Observed(ops, k);
  }

  lemma NothingAtFirst<K(!new), V(!new)>(k: K)
    ensures Order<K, V>([]) == [] && ValueOf<K, V>([], k) == None
  {
    Observed<K, V>([], k);
  }

  // order' is order without one of its keys.
  ghost predicate Removed<K>(order: seq<K>, k: K, order': seq<K>) {
    exists p :: 0 <= p < |order| && order[p] == k && order' == order[..p] + order[p + 1..]
  }

  // Afterwards k has the value, and the others have theirs.
  ghost predicate NowHas<K(!new), V(!new)>(ops: seq<Op<K, V>>, ops': seq<Op<K, V>>, k: K, value: Option<V>) {
    forall x :: ValueOf(ops', x) == if x == k then value else ValueOf(ops, x)
  }

  ghost predicate Unchanged<K(!new), V(!new)>(ops: seq<Op<K, V>>, ops': seq<Op<K, V>>) {
    Order(ops') == Order(ops) && forall x :: ValueOf(ops', x) == ValueOf(ops, x)
  }

  // What each operation gives and does, told by what iterating and pop() give
  // before and after it.
  ghost predicate Means<K(!new), V(!new)>(ops: seq<Op<K, V>>, op: Op<K, V>) {
    var out, ops' := Next(ops, op), ops + [op];
    var order, order' := Order(ops), Order(ops');
    match op
    case OpSet(k, v) =>
      out == Done && NowHas(ops, ops', k, Some(v)) && order' == if k in order then order else order + [k]
    case OpDelete(k) =>
      if k in order then out == Done && NowHas(ops, ops', k, None) && Removed(order, k, order')
      else out == KeyError && Unchanged(ops, ops')
    case OpPop(k, default) =>
      if k in order then
        out == Got(ValueOf(ops, k).value) && NowHas(ops, ops', k, None) && Removed(order, k, order')
      else out == (if default.Some? then Got(default.value) else KeyError) && Unchanged(ops, ops')
    case OpPopItem(last) =>
      if order == [] then out == KeyError && Unchanged(ops, ops')
      else
        var k := if last then order[|order| - 1] else order[0];
        && ValueOf(ops, k).Some? && out == Pair(k, ValueOf(ops, k).value) && NowHas(ops, ops', k, None)
        && order' == if last then order[..|order| - 1] else order[1..]
    case OpSetDefault(k, v) =>
      if k in order then out == Got(ValueOf(ops, k).value) && Unchanged(ops, ops')
      else out == Got(v) && NowHas(ops, ops', k, Some(v)) && order' == order + [k]
    case OpUpdate(items) =>
      && out == Done
      && if items == [] then Unchanged(ops, ops')
         else
           var n := |items| - 1;
           var rest := ops + [OpUpdate(items[..n])];
           Unchanged(rest + [OpSet(items[n].0, items[n].1)], ops')
    case OpClear => out == Done && order' == [] && forall x :: ValueOf(ops', x) == None
    case OpIter => out == Keys(order) && Unchanged(ops, ops')
    case OpReversed =>
      && out.Keys? && |out.keys| == |order| && (forall i :: 0 <= i < |order| ==> out.keys[|order| - 1 - i] == order[i])
      && Unchanged(ops, ops')
  }

  lemma DeletionTells<K(!new), V(!new)>(ops: seq<Op<K, V>>, ops': seq<Op<K, V>>, k: K)
    requires k in Order(ops) && Run(ops').0 == Delete(Run(ops).0, k)
    ensures NowHas(ops, ops', k, None) && Removed(Order(ops), k, Order(ops'))
  {
    Observed(ops, k);
    forall x
      ensures ValueOf(ops', x) == (if x == k then None else ValueOf(ops, x)) && Order(ops') == Run(ops').0.order
    {
      Observed(ops, x);
      Observed(ops', x);
    }
    Observed(ops', k);
    var p :| 0 <= p < |Order(ops)| && Order(ops)[p] == k;
    WithoutAt(Order(ops), k, p);
  }

  lemma PutTells<K(!new), V(!new)>(ops: seq<Op<K, V>>, ops': seq<Op<K, V>>, k: K, v: V)
    requires Run(ops').0 == Put(Run(ops).0, k, v)
    ensures NowHas(ops, ops', k, Some(v)) && Order(ops') == if k in Order(ops) then Order(ops) else Order(ops) + [k]
  {
    Observed(ops, k);
    Observed(ops', k);
    forall x
      ensures ValueOf(ops', x) == if x == k then Some(v) else ValueOf(ops, x)
    {
      Observed(ops, x);
      Observed(ops', x);
    }
  }

  lemma SameTells<K(!new), V(!new)>(ops: seq<Op<K, V>>, ops': seq<Op<K, V>>)
    requires Run(ops').0 == Run(ops).0
    ensures Unchanged(ops, ops')
  {
    OneMore(ops, OpIter);
    OneMore(ops', OpIter);
    forall x
      ensures ValueOf(ops', x) == ValueOf(ops, x)
    {
      Observed(ops, x);
      Observed(ops', x);
    }
  }

  lemma ReversedTells<T>(s: seq<T>)
    ensures |Reverse(s)| == |s| && forall i :: 0 <= i < |s| ==> Reverse(s)[|s| - 1 - i] == s[i]
  {
    if s != [] {
      ReverseAt(s, 0);
    }
    forall i | 0 <= i < |s|
      ensures Reverse(s)[|s| - 1 - i] == s[i]
    {
      ReverseAt(s, i);
    }
  }

  lemma TakingTells<K(!new), V(!new)>(ops: seq<Op<K, V>>, op: Op<K, V>)
    requires op.OpDelete? || op.OpPop? || op.OpPopItem?
    ensures Means(ops, op)
  {
    var s := Run(ops).0;
    OneMore(ops, op);
    ObservedOrder(ops);
    if Run(ops + [op]).0 == s {
      SameTells(ops, ops + [op]);
    }
    match op {
      case OpDelete(k) =>
        if k in s.dict {
          DeletionTells(ops, ops + [op], k);
        }
      case OpPop(k, default) =>
        ObservedValue(ops, k);
        if k in s.dict {
          DeletionTells(ops, ops + [op], k);
        }
      case OpPopItem(last) =>
        if s.order != [] {
          var k := if last then s.order[|s.order| - 1] else s.order[0];
          ObservedValue(ops, k);
          ObservedOrder(ops + [op]);
          PopItemTakesEnd(s, last);
          DeletionTells(ops, ops + [op], k);
        }
    }
  }

  lemma PuttingTells<K(!new), V(!new)>(ops: seq<Op<K, V>>, op: Op<K, V>)
    requires op.OpSet? || op.OpSetDefault? || op.OpUpdate?
    ensures Means(ops, op)
  {
    var s := Run(ops).0;
    OneMore(ops, op);
    ObservedOrder(ops);
    match op {
      case OpSet(k, v) => PutTells(ops, ops + [op], k, v);
      case OpSetDefault(k, v) =>
        ObservedValue(ops, k);
        if k in s.dict {
          SameTells(ops, ops + [op]);
        } else {
          PutTells(ops, ops + [op], k, v);
        }
      case OpUpdate(items) =>
        if items == [] {
          SameTells(ops, ops + [op]);
        } else {
          var n := |items| - 1;
          var rest := ops + [OpUpdate(items[..n])];
          OneMore(ops, OpUpdate(items[..n]));
          OneMore(rest, OpSet(items[n].0, items[n].1));
          SameTells(rest + [OpSet(items[n].0, items[n].1)], ops + [op]);
        }
    }
  }

  // Every operation means what it should, in every run.
  lemma EveryOutputTells<K(!new), V(!new)>(ops: seq<Op<K, V>>, op: Op<K, V>)
    ensures Means(ops, op)
  {
    if op.OpDelete? || op.OpPop? || op.OpPopItem? {
      TakingTells(ops, op);
    } else if op.OpSet? || op.OpSetDefault? || op.OpUpdate? {
      PuttingTells(ops, op);
    } else {
      OneMore(ops, op);
      ObservedOrder(ops);
      if op.OpClear? {
        ObservedOrder(ops + [op]);
        forall x
          ensures ValueOf(ops + [op], x) == None
        {
          ObservedValue(ops + [op], x);
        }
      } else {
        SameTells(ops, ops + [op]);
        ReversedTells(Order(ops));
      }
    }
  }

  // --- The linked structure

  class Link<K> {
    var prev: Link?<K>
    var next: Link?<K>
    var key: Option<K>

    constructor (prev: Link?<K>, next: Link?<K>, key: Option<K>)
      ensures this.prev == prev && this.next == next && this.key == key
    {
      this.prev, this.next, this.key := prev, next, key;
    }
  }

  // ring lists the links in order, the sentinel first; keys are the keys of
  // the others.
  class OrderedDict<K(==), V(==)> {
    var root: Link<K>
    var links: map<K, Link<K>>
    var dict: map<K, V>
    ghost var ring: seq<Link<K>>
    ghost var keys: seq<K>

    // Link i and its successor on the circle point at each other.
    ghost predicate Joined(i: nat)
      requires i < |ring|
      reads this`ring, ring`prev, ring`next
    {
      var j := if i + 1 == |ring| then 0 else i + 1;
      ring[i].next == ring[j] && ring[j].prev == ring[i]
    }

    ghost predicate Circular()
      reads this`ring, ring`prev, ring`next
    {
      Distinct(ring) && forall i :: 0 <= i < |ring| ==> Joined(i)
    }

    // The i-th key is carried by link i + 1, where the index finds it.
    ghost predicate Indexed(i: nat)
      requires i < |keys| && |ring| == |keys| + 1
      reads this`keys, this`links, this`ring, ring`key
    {
      ring[i + 1].key == Some(keys[i]) && keys[i] in links && links[keys[i]] == ring[i + 1]
    }

    ghost predicate Linked()
      reads this`root, this`keys, this`links, this`ring, ring
    {
      && Circular()
      && |ring| == |keys| + 1 && ring[0] == root && root.key == None
      && Distinct(keys)
      && (forall i :: 0 <= i < |keys| ==> Indexed(i))
      && (forall k :: k in links ==> k in keys)
    }

    lemma KeysAreLinked()
      requires Linked()
      ensures forall k :: k in keys <==> k in links
    {
      forall k | k in keys
        ensures k in links
      {
        var i :| 0 <= i < |keys| && keys[i] == k;
        assert Indexed(i);
      }
    }

    ghost predicate Valid()
      reads this, ring
    {
      Linked()
      && links.Keys == dict.Keys
    }

    ghost function Value(): (s: Contents<K, V>)
      requires Valid()
      reads this, ring
      ensures WellFormed(s)
    {
      KeysAreLinked();
      Contents(keys, dict)
    }

    constructor ()
      ensures Valid() && Value() == Contents([], map[]) && fresh(ring)
    {
      root := new Link(null, null, None);
      links, dict, keys := map[], map[], [];
      new;
      root.prev, root.next := root, root;
      ring := [root];
    }

    method SetItem(key: K, value: V)
      requires Valid()
      modifies this, ring
      ensures Valid() && fresh(set l | l in ring && l !in old(ring))
      ensures Value() == Put(old(Value()), key, value)
    {
      if key !in dict {
        Append(key, value);
      } else {
        dict := dict[key := value];
      }
    }

    method Append(key: K, value: V)
      requires Valid() && key !in dict
      modifies this, ring
      ensures Valid() && fresh(set l | l in ring && l !in old(ring))
      ensures keys == old(keys) + [key] && dict == old(dict)[key := value]
    {
      KeysAreLinked();
      assert Joined(|keys|);
      var link := new Link<K>(root.prev, root, Some(key));
      PutLast(link);
      links := links[key := link];
      dict := dict[key := value];
      keys := keys + [key];
      forall i | 0 <= i < |keys|
        ensures Indexed(i)
      {
        assert i < |old(keys)| ==> old(Indexed(i));
      }
    }

    // The new link goes between the last link and the sentinel.
    method PutLast(link: Link<K>)
      requires Circular() && ring != [] && ring[0] == root && link !in ring
      requires link.prev == ring[|ring| - 1] && link.next == root
      modifies this`ring, ring`prev, ring`next
      ensures Circular() && ring == old(ring) + [link]
    {
      link.prev.next := link;
      root.prev := link;
      ring := ring + [link];
      forall i | 0 <= i < |ring|
        ensures Joined(i)
      {
        assert i < |old(ring)| ==> old(Joined(i));
      }
    }

    // del self[key]; false is a KeyError.
    method DelItem(key: K) returns (ok: bool)
      requires Valid()
      modifies this, ring
      ensures Valid() && fresh(set l | l in ring && l !in old(ring))
      ensures ok <==> key in old(dict)
      ensures Value() == if ok then Delete(old(Value()), key) else old(Value())
    {
      if key !in dict {
        return false;
      }
      dict := dict - {key};
      KeysAreLinked();
      ghost var p :| 0 <= p < |keys| && keys[p] == key;
      Unlink(key, p);
      return true;
    }

    method Unlink(key: K, ghost p: nat)
      requires Linked() && dict.Keys == links.Keys - {key} && p < |keys| && keys[p] == key
      modifies this, ring
      ensures Valid() && ring == old(ring[..p + 1] + ring[p + 2..])
      ensures keys == Without(old(keys), key) && dict == old(dict)
    {
      assert Indexed(p);
      var link := links[key];
      links := links - {key};
      Bypass(link, p + 1);
      forall i | 0 <= i < |keys| && i != p
        ensures IndexedWithout(i, p)
      {
        assert old(Indexed(i));
      }
      ForgetKey(key, p);
    }

    // As Indexed, with the link of the p-th key gone from the ring.
    ghost predicate IndexedWithout(i: nat, p: nat)
      requires i < |keys| && p < |keys| && i != p && |ring| == |keys|
      reads this`keys, this`links, this`ring, ring`key
    {
      var link := ring[if i < p then i + 1 else i];
      link.key == Some(keys[i]) && keys[i] in links && links[keys[i]] == link
    }

    ghost method ForgetKey(key: K, p: nat)
      requires Distinct(keys) && p < |keys| && keys[p] == key
      requires Circular() && |ring| == |keys| && ring[0] == root && root.key == None
      requires forall i :: 0 <= i < |keys| && i != p ==> IndexedWithout(i, p)
      requires forall k :: k in links ==> k in keys && k != key
      modifies this`keys
      ensures Linked() && keys == Without(old(keys), key)
    {
      WithoutAt(keys, key, p);
      DistinctAfterRemoval(keys, p);
      keys := keys[..p] + keys[p + 1..];
      forall i | 0 <= i < |keys|
        ensures Indexed(i)
      {
        assert old(IndexedWithout(if i < p then i else i + 1, p));
      }
    }

    // The neighbours of the p-th link are joined to each other.
    method Bypass(link: Link<K>, ghost p: nat)
      requires Circular() && 0 < p < |ring| && ring[p] == link
      modifies this`ring, ring`prev, ring`next
      ensures Circular() && ring == old(ring[..p] + ring[p + 1..])
    {
      assert Joined(p - 1) && Joined(p);
      var linkPrev := link.prev;
      var linkNext := link.next;
      linkPrev.next := linkNext;
      linkNext.prev := linkPrev;
      DistinctAfterRemoval(ring, p);
      ring := ring[..p] + ring[p + 1..];
      forall i | 0 <= i < |ring|
        ensures Joined(i)
      {
        assert old(Joined(if i < p then i else i + 1));
      }
    }

    // Following the NEXT pointers from the sentinel.
    method Iter() returns (order: seq<K>)
      requires Valid()
      ensures order == keys
    {
      order := [];
      var curr := root.next;
      assert Joined(0);
      ghost var i := 1;
      while curr != root
        invariant 1 <= i <= |ring| && curr == ring[if i == |ring| then 0 else i]
        invariant order == keys[..i - 1]
        decreases |ring| - i
      {
        assert Joined(i) && Indexed(i - 1);
        order := order + [curr.key.value];
        curr := curr.next;
        i := i + 1;
      }
    }

    // Following the PREV pointers from the sentinel.
    method Reversed() returns (order: seq<K>)
      requires Valid()
      ensures order == Reverse(keys)
    {
      order := [];
      var curr := root.prev;
      assert Joined(|keys|);
      ghost var i := |keys|;
      while curr != root
        invariant 0 <= i <= |keys| && curr == ring[i]
        invariant order == Reverse(keys[i..])
        decreases i
      {
        assert Joined(i - 1) && Indexed(i - 1);
        assert keys[i - 1..][1..] == keys[i..];
        order := order + [curr.key.value];
        curr := curr.prev;
        i := i - 1;
      }
      assert keys[0..] == keys;
    }

    method Items() returns (items: seq<(K, V)>)
      requires Valid()
      ensures ItemsOf(Value(), items)
    {
      var order := Iter();
      KeysAreLinked();
      items := [];
      for i := 0 to |order|
        invariant |items| == i
        invariant forall j :: 0 <= j < i ==> keys[j] in dict && items[j] == (keys[j], dict[keys[j]])
      {
        assert keys[i] in keys;
        items := items + [(order[i], dict[order[i]])];
      }
    }

    // Comparison with another ordered dictionary is order-sensitive.
    method Equals(other: OrderedDict<K, V>) returns (eq: bool)
      requires Valid() && other.Valid()
      ensures eq <==> Value() == other.Value()
    {
      var mine := Items();
      var theirs := other.Items();
      ItemsDetermine(Value(), other.Value(), mine, theirs);
      SameSize();
      other.SameSize();
      if |dict| != |other.dict| {
        return false;
      }
      eq := SameList(mine, theirs);
    }

    lemma SameSize()
      requires Valid()
      ensures |dict| == |keys|
    {
      KeysAreLinked();
      assert dict.Keys == set k | k in keys;
      DistinctSize(keys);
    }

    method Pop(key: K, default: Option<V>) returns (r: Output<K, V>)
      requires Valid()
      modifies this, ring
      ensures Valid() && fresh(set l | l in ring && l !in old(ring))
      ensures (Value(), r) == Step(old(Value()), OpPop(key, default))
    {
      if key in dict {
        var value := dict[key];
        var _ := DelItem(key);
        return Got(value);
      }
      return if default.Some? then Got(default.value) else KeyError;
    }

    method PopItem(last: bool) returns (r: Output<K, V>)
      requires Valid()
      modifies this, ring
      ensures Valid() && fresh(set l | l in ring && l !in old(ring))
      ensures (Value(), r) == Step(old(Value()), OpPopItem(last))
    {
      SameSize();
      if |dict| == 0 {
        return KeyError;
      }
      var key := EndKey(last);
      r := Pop(key, None);
      return Pair(key, r.value);
    }

    // The key of the link before or after the sentinel.
    method EndKey(last: bool) returns (key: K)
      requires Valid() && keys != []
      ensures key == (if last then keys[|keys| - 1] else keys[0]) && key in dict
    {
      KeysAreLinked();
      assert Joined(0) && Joined(|keys|) && Indexed(0) && Indexed(|keys| - 1);
      var end := if last then root.prev else root.next;
      key := end.key.value;
      assert key in keys;
    }

    method SetDefault(key: K, value: V) returns (r: Output<K, V>)
      requires Valid()
      modifies this, ring
      ensures Valid() && fresh(set l | l in ring && l !in old(ring))
      ensures (Value(), r) == Step(old(Value()), OpSetDefault(key, value))
    {
      if key in dict {
        return Got(dict[key]);
      }
      SetItem(key, value);
      return Got(value);
    }

    method Update(items: seq<(K, V)>)
      requires Valid()
      modifies this, ring
      ensures Valid() && fresh(set l | l in ring && l !in old(ring))
      ensures Value() == PutAll(old(Value()), items)
    {
      for i := 0 to |items|
        invariant Valid() && fresh(set l | l in ring && l !in old(ring))
        invariant Value() == PutAll(old(Value()), items[..i])
      {
        SetItem(items[i].0, items[i].1);
        assert items[..i + 1][..i] == items[..i];
      }
      assert items[..|items|] == items;
    }

    // Every link but the sentinel is emptied, in any order.
    method Clear()
      requires Valid()
      modifies this, ring
      ensures Valid() && fresh(set l | l in ring && l !in old(ring))
      ensures Value() == Contents([], map[])
    {
      var todo := links.Keys;
      while todo != {}
        invariant todo <= links.Keys
        invariant links == old(links) && ring == old(ring) && root == old(root) && keys == old(keys)
      {
        var k :| k in todo;
        todo := todo - {k};
        var node := links[k];
        assert old(Linked());
        assert node in ring by {
          var i :| 0 <= i < |keys| && keys[i] == k;
          assert old(Indexed(i));
        }
        node.prev, node.next, node.key := null, null, None;
      }
      root.prev, root.next, root.key := root, root, None;
      links, dict := map[], map[];
      ring, keys := [root], [];
    }
  }

  method Execute<K(==), V(==)>(d: OrderedDict<K, V>, op: Op<K, V>) returns (output: Output<K, V>)
    requires d.Valid()
    modifies d, d.ring
    ensures d.Valid() && fresh(set l | l in d.ring && l !in old(d.ring))
    ensures (d.Value(), output) == Step(old(d.Value()), op)
  {
    output := Done;
    match op {
      case OpSet(k, v) => d.SetItem(k, v);
      case OpDelete(k) =>
        var ok := d.DelItem(k);
        output := if ok then Done else KeyError;
      case OpPop(k, default) => output := d.Pop(k, default);
      case OpPopItem(last) => output := d.PopItem(last);
      case OpSetDefault(k, v) => output := d.SetDefault(k, v);
      case OpUpdate(items) => d.Update(items);
      case OpClear => d.Clear();
      case OpIter =>
        var order := d.Iter();
        output := Keys(order);
      case OpReversed =>
        var order := d.Reversed();
        output := Keys(order);
    }
  }

  // Every run of the linked structure gives the outputs of the plain
  // sequence-and-map dictionary.
  method ExecuteAll<K(==), V(==)>(ops: seq<Op<K, V>>) returns (outputs: seq<Output<K, V>>)
    ensures outputs == Run(ops).1
  {
    var d := new OrderedDict<K, V>();
    outputs := [];
    for i := 0 to |ops|
      invariant d.Valid() && fresh(d) && fresh(d.ring)
      invariant (d.Value(), outputs) == Run(ops[..i])
    {
      var output := Execute(d, ops[i]);
      outputs := outputs + [output];
      assert ops[..i + 1][..i] == ops[..i];
    }
    assert ops[..|ops|] == ops;
  }
}
