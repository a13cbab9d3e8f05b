// ABCMeta: class creation, virtual registration and the cached subclass
// search (src/scalarizr/externals/abc.py).
module AbstractBaseClasses {
  import opened Graphs
  import opened Wrappers

  // What issubclass(), register() and a class statement mean when no cache is
  // involved: reachability in a graph with an edge from a class to each of its
  // direct subclasses and to each class registered with it.

  datatype Op =
    | NewClass(bases: set<nat>)
    | Register(cls: nat, sub: nat)
    | IsSubclass(sub: nat, cls: nat)
    | IsInstance(klass: Option<nat>, typ: nat, cls: nat)

  datatype Answer =
    | Created(id: nat)
    | Registered
    | AlreadySubclass
    | CycleRefused
    | Verdict(ok: bool)
    | UnknownName

  // The classes created so far are the nodes 0, ..., size - 1.
  datatype State = State(size: nat, graph: Graph)

  ghost function Step(s: State, op: Op): (State, Answer) {
    match op
    case NewClass(bases) =>
      if bases <= s.graph.Keys
      then (State(s.size + 1, AddLeaf(s.graph, s.size, bases)), Created(s.size))
      else (s, UnknownName)
    case Register(cls, sub) =>
      if cls !in s.graph || sub !in s.graph then (s, UnknownName)
      else if Reaches(s.graph, cls, sub) then (s, AlreadySubclass)
      else if Reaches(s.graph, sub, cls) then (s, CycleRefused)
      else (s.(graph := AddEdge(s.graph, cls, sub)), Registered)
    case IsSubclass(sub, cls) =>
      if cls !in s.graph || sub !in s.graph then (s, UnknownName)
      else (s, Verdict(Reaches(s.graph, cls, sub)))
    case IsInstance(klass, typ, cls) =>
      if cls !in s.graph || typ !in s.graph || (klass.Some? && klass.value !in s.graph) then (s, UnknownName)
      else (s, Verdict((klass.Some? && Reaches(s.graph, cls, klass.value)) || Reaches(s.graph, cls, typ)))
  }

  ghost function Run(ops: seq<Op>): (State, seq<Answer>) {
    if ops == [] then (State(0, map[]), [])
    else
      var (s, answers) := Run(ops[..|ops| - 1]);
      var (s', answer) := Step(s, ops[|ops| - 1]);
      (s', answers + [answer])
  }

  ghost predicate Named(g: Graph, n: nat) {
    Closed(g) && forall i: nat :: i in g <==> i < n
  }

  // register()'s two tests keep the graph acyclic in every reachable state.
  lemma {:induction false} EveryRunAcyclic(ops: seq<Op>)
    ensures var s := Run(ops).0; Acyclic(s.graph) && Named(s.graph, s.size)
  {
    if ops != [] {
      var s := Run(ops[..|ops| - 1]).0;
      EveryRunAcyclic(ops[..|ops| - 1]);
      match ops[|ops| - 1] {
        case NewClass(bases) =>
          if bases <= s.graph.Keys {
            AddLeafAcyclic(s.graph, s.size, bases);
          }
        case Register(cls, sub) =>
          if cls in s.graph && sub in s.graph {
            AddEdgeAcyclic(s.graph, cls, sub);
          }
        case _ =>
      }
    }
  }

  // --- What the answers say

  // The answer to one more operation after a run.
  ghost function Next(ops: seq<Op>, op: Op): Answer {
    var answers := Run(ops + [op]).1;
    if answers == [] then UnknownName else answers[|answers| - 1]
  }

  // After the run, issubclass(sub, cls) is true.
  ghost predicate Sub(ops: seq<Op>, sub: nat, cls: nat) {
    Next(ops, IsSubclass(sub, cls)) == Verdict(true)
  }

  lemma OneMore(ops: seq<Op>, op: Op)
    ensures Run(ops + [op]).0 == Step(Run(ops).0, op).0
    ensures Run(ops + [op]).1 == Run(ops).1 + [Next(ops, op)] && Next(ops, op) == Step(Run(ops).0, op).1
  {
    assert (ops + [op])[..|ops|] == ops;
  }

  function Creations(answers: seq<Answer>): nat {
    if answers == [] then 0 else Creations(answers[..|answers| - 1]) + if answers[|answers| - 1].Created? then 1 else 0
  }

  lemma {:induction false} CreationsAreNamed(ops: seq<Op>)
    ensures Run(ops).0.size == Creations(Run(ops).1)
    ensures forall i: nat :: i in Run(ops).0.graph <==> i < Creations(Run(ops).1)
  {
    EveryRunAcyclic(ops);
    if ops != [] {
      var n := |ops| - 1;
      CreationsAreNamed(ops[..n]);
      OneMore(ops[..n], ops[n]);
      assert ops[..n] + [ops[n]] == ops;
      assert Run(ops).1[..|Run(ops).1| - 1] == Run(ops[..n]).1;
    }
  }

  // Classes are numbered in the order of their creation, and only those
  // created have a name.
  lemma NamesAreCreations(ops: seq<Op>, bases: set<nat>, sub: nat, cls: nat)
    ensures var n := Creations(Run(ops).1);
      && Next(ops, NewClass(bases)) == (if forall b :: b in bases ==> b < n then Created(n) else UnknownName)
      && Next(ops, IsSubclass(sub, cls)) == (if sub < n && cls < n then Verdict(Sub(ops, sub, cls)) else UnknownName)
  {
    CreationsAreNamed(ops);
    OneMore(ops, NewClass(bases));
    OneMore(ops, IsSubclass(sub, cls));
  }

  // Right after a class statement the new class is a subclass of itself and of
  // whatever its bases are subclasses of, nothing else is a subclass of it,
  // and other classes are related as before.
  lemma ClassStatementMeans(ops: seq<Op>, bases: set<nat>, sub: nat, cls: nat)
    requires Next(ops, NewClass(bases)).Created?
    ensures var n := Next(ops, NewClass(bases)).id;
      sub <= n && cls <= n ==>
        (Sub(ops + [NewClass(bases)], sub, cls) <==>
           if sub == n then cls == n || exists b :: b in bases && Sub(ops, b, cls)
           else cls != n && Sub(ops, sub, cls))
  {
    var s := Run(ops).0;
    var n := s.size;
    OneMore(ops, NewClass(bases));
    OneMore(ops + [NewClass(bases)], IsSubclass(sub, cls));
    OneMore(ops, IsSubclass(sub, cls));
    EveryRunAcyclic(ops);
    forall b | b in bases
      ensures Sub(ops, b, cls) <==> cls in s.graph && Reaches(s.graph, cls, b)
    {
      OneMore(ops, IsSubclass(b, cls));
    }
    if sub == n {
      ReachesLeaf(s.graph, n, bases, cls);
      forall b | b in bases && Reaches(s.graph, cls, b)
        ensures cls in s.graph
      {
        ReachesOnlyNodes(s.graph, cls, b);
      }
    } else if sub < n && cls == n {
      LeafReachesOnlyItself(s.graph, n, bases, sub);
    } else if sub < n && cls < n {
      ReachesAfterAddLeaf(s.graph, n, bases, cls, sub);
    }
  }

  // A registration makes the registered class and its subclasses subclasses of
  // the other class and of what that is a subclass of, and no other; it is
  // refused or left out as issubclass() tells.
  lemma RegistrationMeans(ops: seq<Op>, cls: nat, sub: nat, a: nat, b: nat)
    requires Next(ops, Register(cls, sub)) != UnknownName
    ensures Next(ops, Register(cls, sub)) ==
      if Sub(ops, sub, cls) then AlreadySubclass else if Sub(ops, cls, sub) then CycleRefused else Registered
    ensures Sub(ops + [Register(cls, sub)], b, a) <==>
      || Sub(ops, b, a)
      || (Next(ops, Register(cls, sub)) == Registered && Sub(ops, b, sub) && Sub(ops, cls, a))
  {
    var s := Run(ops).0;
    OneMore(ops, Register(cls, sub));
    OneMore(ops + [Register(cls, sub)], IsSubclass(b, a));
    OneMore(ops, IsSubclass(b, a));
    OneMore(ops, IsSubclass(sub, cls));
    OneMore(ops, IsSubclass(cls, sub));
    OneMore(ops, IsSubclass(b, sub));
    OneMore(ops, IsSubclass(cls, a));
    ReachesAfterAddEdge(s.graph, cls, sub, a, b);
  }

  // isinstance() asks about the class and the type of the instance.
  lemma InstanceMeans(ops: seq<Op>, klass: Option<nat>, typ: nat, cls: nat)
    requires Next(ops, IsInstance(klass, typ, cls)) != UnknownName
    ensures Next(ops, IsInstance(klass, typ, cls)) ==
      Verdict((klass.Some? && Sub(ops, klass.value, cls)) || Sub(ops, typ, cls))
  {
    OneMore(ops, IsInstance(klass, typ, cls));
    OneMore(ops, IsSubclass(typ, cls));
    if klass.Some? {
      OneMore(ops, IsSubclass(klass.value, cls));
    }
  }

  // Only what creates a class or registers one changes later answers.
  lemma OthersChangeNothing(ops: seq<Op>, other: Op, op: Op)
    requires !Next(ops, other).Created? && Next(ops, other) != Registered
    ensures Next(ops + [other], op) == Next(ops, op)
  {
    OneMore(ops, other);
    OneMore(ops + [other], op);
    OneMore(ops, op);
  }

  // A class object, one instance of ABCMeta. Class objects are referred to by
  // their position in the order of creation.
  class AbcClass {
    const id: nat
    var mro: set<nat>
    var subclasses: set<nat>
    var registry: set<nat>
    var cache: set<nat>
    var negativeCache: set<nat>
    var negativeVersion: nat

    constructor (id: nat, ancestors: set<nat>, counter: nat)
      ensures this.id == id && mro == ancestors + {id}
      ensures subclasses == registry == cache == negativeCache == {}
      ensures negativeVersion == counter
    {
      this.id := id;
      mro := ancestors + {id};
      subclasses, registry, cache, negativeCache := {}, {}, {}, {};
      negativeVersion := counter;
    }
  }

  // Every class created so far, and ABCMeta's invalidation counter. graph is
  // the class graph that the registries and subclass lists describe.
  class AbcWorld {
    var classes: seq<AbcClass>
    var invalidationCounter: nat
    ghost var graph: Graph

    ghost predicate Placed(i: nat)
      requires i < |classes|
      reads this, classes[i]
    {
      var c := classes[i];
      && c.id == i
      && i in graph && graph[i] == c.subclasses + c.registry
      && (forall a :: a in c.mro ==> a in graph && Reaches(graph, a, i))
      && i in c.mro
    }

    // A positive entry is always true; a negative one whenever its version is
    // the current one.
    ghost predicate CacheSound(i: nat)
      requires i < |classes|
      reads this, classes[i]
    {
      var c := classes[i];
      && (forall s :: s in c.cache ==> s in graph && Reaches(graph, i, s))
      && (forall s :: s in c.negativeCache ==> s in graph)
      && c.negativeVersion <= invalidationCounter
      && (c.negativeVersion == invalidationCounter ==> forall s :: s in c.negativeCache ==> !Reaches(graph, i, s))
    }

    ghost predicate Valid()
      reads this, classes
    {
      && Acyclic(graph) && Named(graph, |classes|)
      && (forall i, j :: 0 <= i < j < |classes| ==> classes[i] != classes[j])
      && (forall i :: 0 <= i < |classes| ==> Placed(i))
      && (forall i :: 0 <= i < |classes| ==> CacheSound(i))
    }

    constructor ()
      ensures Valid() && classes == [] && graph == map[]
    {
      classes, invalidationCounter, graph := [], 0, map[];
    }

    method Remember(cls: nat, sub: nat)
      requires Valid() && cls < |classes| && sub < |classes| && Reaches(graph, cls, sub)
      modifies {classes[cls]}`cache
      ensures Valid() && classes[cls].cache == old(classes[cls].cache) + {sub}
    {
      classes[cls].cache := classes[cls].cache + {sub};
      forall i | 0 <= i < |classes|
        ensures Placed(i) && CacheSound(i)
      {
        assert old(Placed(i) && CacheSound(i));
      }
    }

    method RememberNegative(cls: nat, sub: nat)
      requires Valid() && cls < |classes| && sub < |classes| && !Reaches(graph, cls, sub)
      modifies {classes[cls]}`negativeCache
      ensures Valid() && classes[cls].negativeCache == old(classes[cls].negativeCache) + {sub}
    {
      classes[cls].negativeCache := classes[cls].negativeCache + {sub};
      forall i | 0 <= i < |classes|
        ensures Placed(i) && CacheSound(i)
      {
        assert old(Placed(i) && CacheSound(i));
      }
    }

    method Invalidate(cls: nat)
      requires Valid() && cls < |classes|
      modifies {classes[cls]}`negativeCache, {classes[cls]}`negativeVersion
      ensures Valid() && classes[cls].negativeCache == {} && classes[cls].negativeVersion == invalidationCounter
    {
      classes[cls].negativeCache := {};
      classes[cls].negativeVersion := invalidationCounter;
      forall i | 0 <= i < |classes|
        ensures Placed(i) && CacheSound(i)
      {
        assert old(Placed(i) && CacheSound(i));
      }
    }

    // issubclass(sub, cls). The cached search answers reachability, changes
    // nothing but caches and leaves the answer in one of them; it terminates
    // because the descendants of the class searched shrink at every call.
    method SubclassCheck(cls: nat, sub: nat) returns (ok: bool)
      requires Valid() && cls < |classes| && sub < |classes|
      modifies classes`cache, classes`negativeCache, classes`negativeVersion
      ensures Valid()
      ensures ok <==> Reaches(graph, cls, sub)
      ensures if ok then sub in classes[cls].cache
              else sub in classes[cls].negativeCache && classes[cls].negativeVersion == invalidationCounter
      ensures forall i :: 0 <= i < |classes| ==> old(classes[i].negativeVersion) <= classes[i].negativeVersion
      decreases Descendants(graph, cls), 3
    {
      var c := classes[cls];
      assert CacheSound(cls);
      if sub in c.cache {
        return true;
      }
      if c.negativeVersion < invalidationCounter {
        Invalidate(cls);
      } else if sub in c.negativeCache {
        return false;
      }
      ok := Search(cls, sub);
      assert CacheSound(cls);
    }

    // The search proper, once the caches have not answered.
    method Search(cls: nat, sub: nat) returns (ok: bool)
      requires Valid() && cls < |classes| && sub < |classes|
      requires classes[cls].negativeVersion == invalidationCounter
      modifies classes`cache, classes`negativeCache, classes`negativeVersion
      ensures Valid()
      ensures ok <==> Reaches(graph, cls, sub)
      ensures if ok then sub in classes[cls].cache else sub in classes[cls].negativeCache
      ensures forall i :: 0 <= i < |classes| ==> old(classes[i].negativeVersion) <= classes[i].negativeVersion
      decreases Descendants(graph, cls), 2
    {
      var c := classes[cls];
      if cls in classes[sub].mro {
        assert Placed(sub);
        Remember(cls, sub);
        return true;
      }
      ok := SearchAny(cls, c.registry, sub);
      if ok {
        return;
      }
      ok := SearchAny(cls, c.subclasses, sub);
      if ok {
        return;
      }
      NoSuccessorReaches(cls, sub);
      RememberNegative(cls, sub);
      return false;
    }

    // The loop over registered classes and the loop over direct subclasses;
    // neither relies on an order.
    method SearchAny(cls: nat, candidates: set<nat>, sub: nat) returns (ok: bool)
      requires Valid() && cls < |classes| && sub < |classes|
      requires candidates <= classes[cls].registry || candidates <= classes[cls].subclasses
      modifies classes`cache, classes`negativeCache, classes`negativeVersion
      ensures Valid()
      ensures ok ==> Reaches(graph, cls, sub) && sub in classes[cls].cache
      ensures forall i :: 0 <= i < |classes| ==> old(classes[i].negativeVersion) <= classes[i].negativeVersion
      ensures !ok ==> forall r :: r in candidates ==> !Reaches(graph, r, sub)
      decreases Descendants(graph, cls), 1
    {
      var unseen := candidates;
      assert Placed(cls);
      assert candidates <= graph[cls];
      while unseen != {}
        invariant Valid() && unseen <= candidates
        invariant forall i :: 0 <= i < |classes| ==> old(classes[i].negativeVersion) <= classes[i].negativeVersion
        invariant forall r :: r in candidates - unseen ==> !Reaches(graph, r, sub)
        decreases unseen
      {
        var next :| next in unseen;
        unseen := unseen - {next};
        DescendantsShrink(graph, cls, next);
        ok := SubclassCheck(next, sub);
        if ok {
          ReachesByEdge(graph, cls, next);
          ReachesTransitive(graph, cls, next, sub);
          Remember(cls, sub);
          return;
        }
      }
      return false;
    }

    lemma NoSuccessorReaches(cls: nat, sub: nat)
      requires Valid() && cls < |classes| && sub < |classes| && cls !in classes[sub].mro
      requires forall r :: r in classes[cls].registry ==> !Reaches(graph, r, sub)
      requires forall r :: r in classes[cls].subclasses ==> !Reaches(graph, r, sub)
      ensures !Reaches(graph, cls, sub)
    {
      assert Placed(cls) && Placed(sub);
      if Reaches(graph, cls, sub) {
        var r := ReachesFirstStep(graph, cls, sub);
        assert false;
      }
    }

    // isinstance(instance, cls), with klass the instance's __class__ (None
    // when it has none) and typ its type: the inlined cache test and the
    // shortcut through the negative cache agree with the graph.
    method InstanceCheck(cls: nat, klass: Option<nat>, typ: nat) returns (ok: bool)
      requires Valid() && cls < |classes| && typ < |classes|
      requires klass.Some? ==> klass.value < |classes|
      modifies classes`cache, classes`negativeCache, classes`negativeVersion
      ensures Valid()
      ensures ok <==> (klass.Some? && Reaches(graph, cls, klass.value)) || Reaches(graph, cls, typ)
    {
      assert CacheSound(cls);
      if klass.Some? && klass.value in classes[cls].cache {
        return true;
      }
      if klass == None || klass.value == typ {
        if classes[cls].negativeVersion == invalidationCounter && typ in classes[cls].negativeCache {
          return false;
        }
        ok := SubclassCheck(cls, typ);
      } else {
        ok := SubclassCheck(cls, klass.value);
        if !ok {
          ok := SubclassCheck(cls, typ);
        }
      }
    }

    // cls.register(sub).
    method RegisterClass(cls: nat, sub: nat) returns (answer: Answer)
      requires Valid() && cls < |classes| && sub < |classes|
      modifies this`graph, this`invalidationCounter, {classes[cls]}`registry
      modifies classes`cache, classes`negativeCache, classes`negativeVersion
      ensures Valid()
      ensures answer == (if Reaches(old(graph), cls, sub) then AlreadySubclass
                         else if Reaches(old(graph), sub, cls) then CycleRefused
                         else Registered)
      ensures graph == if answer.Registered? then AddEdge(old(graph), cls, sub) else old(graph)
    {
      var ok := SubclassCheck(cls, sub);
      if ok {
        return AlreadySubclass;
      }
      ok := SubclassCheck(sub, cls);
      if ok {
        return CycleRefused;
      }
      AddToRegistry(cls, sub);
      return Registered;
    }

    method AddToRegistry(cls: nat, sub: nat)
      requires Valid() && cls < |classes| && sub < |classes| && !Reaches(graph, sub, cls)
      modifies this`graph, this`invalidationCounter, {classes[cls]}`registry
      ensures Valid()
      ensures graph == AddEdge(old(graph), cls, sub)
    {
      ghost var g' := AddEdge(graph, cls, sub);
      AddEdgeAcyclic(graph, cls, sub);
      forall a, b | Reaches(graph, a, b)
        ensures Reaches(g', a, b)
      {
        ReachesMonotone(graph, g', a, b);
      }
      assert Placed(cls);
      classes[cls].registry := classes[cls].registry + {sub};
      invalidationCounter := invalidationCounter + 1;
      graph := g';
      forall i | 0 <= i < |classes|
        ensures Placed(i) && CacheSound(i)
      {
        assert old(Placed(i) && CacheSound(i));
      }
    }

    // A class statement: the new class is listed under each of its bases and
    // its mro is everything above it.
    method DefineClass(bases: set<nat>) returns (id: nat)
      requires Valid() && forall b :: b in bases ==> b < |classes|
      modifies this`classes, this`graph, classes`subclasses
      ensures Valid()
      ensures id == |old(classes)| && |classes| == id + 1 && classes[..id] == old(classes) && fresh(classes[id])
      ensures graph == AddLeaf(old(graph), id, bases)
    {
      id := |classes|;
      var ancestors := set b, a | b in bases && a in classes[b].mro :: a;
      NewLeaf(bases, ancestors);
      var c := new AbcClass(id, ancestors, invalidationCounter);
      Publish(c, bases, ancestors);
    }

    method Publish(c: AbcClass, bases: set<nat>, ancestors: set<nat>)
      requires Valid() && forall b :: b in bases ==> b < |classes|
      requires c !in classes && c.id == |classes| && c.mro == ancestors + {c.id}
      requires c.subclasses == c.registry == c.cache == c.negativeCache == {}
      requires c.negativeVersion == invalidationCounter
      requires NewLeafSound(bases, ancestors)
      modifies this`classes, this`graph, classes`subclasses
      ensures Valid()
      ensures classes == old(classes) + [c] && graph == AddLeaf(old(graph), c.id, bases)
    {
      forall b | b in bases {
        classes[b].subclasses := classes[b].subclasses + {c.id};
      }
      graph := AddLeaf(graph, c.id, bases);
      classes := classes + [c];
      forall i | 0 <= i < c.id
        ensures Placed(i)
      {
        assert old(Placed(i));
      }
      forall i | 0 <= i < c.id
        ensures CacheSound(i)
      {
        assert old(CacheSound(i));
      }
    }

    ghost predicate NewLeafSound(bases: set<nat>, ancestors: set<nat>)
      reads this
    {
      var g' := AddLeaf(graph, |classes|, bases);
      && Acyclic(g') && Named(g', |classes| + 1)
      && (forall a, b :: a in graph && b in graph ==> (Reaches(g', a, b) <==> Reaches(graph, a, b)))
      && (forall a :: a in ancestors ==> a in graph && Reaches(g', a, |classes|))
      && Reaches(g', |classes|, |classes|)
    }

    lemma NewLeaf(bases: set<nat>, ancestors: set<nat>)
      requires Valid() && forall b :: b in bases ==> b < |classes|
      requires ancestors == set b, a | b in bases && a in classes[b].mro :: a
      ensures NewLeafSound(bases, ancestors)
    {
      var id := |classes|;
      var g' := AddLeaf(graph, id, bases);
      AddLeafAcyclic(graph, id, bases);
      forall a, b | a in graph && b in graph
        ensures Reaches(g', a, b) <==> Reaches(graph, a, b)
      {
        ReachesAfterAddLeaf(graph, id, bases, a, b);
      }
      ReachesSelf(g', id);
      forall a | a in ancestors
        ensures a in graph && Reaches(g', a, id)
      {
        var b :| b in bases && a in classes[b].mro;
        assert Placed(b);
        ReachesByEdge(g', b, id);
        ReachesTransitive(g', a, b, id);
      }
    }
  }

  // One operation against the cached world.
  method Execute(w: AbcWorld, op: Op) returns (answer: Answer)
    requires w.Valid()
    modifies w, w.classes
    ensures w.Valid() && fresh(set c | c in w.classes && c !in old(w.classes))
    ensures (State(|w.classes|, w.graph), answer) == Step(State(|old(w.classes)|, old(w.graph)), op)
  {
    answer := UnknownName;
    match op {
      case NewClass(bases) =>
        if forall b :: b in bases ==> b < |w.classes| {
          var id := w.DefineClass(bases);
          answer := Created(id);
        }
      case Register(cls, sub) =>
        if cls < |w.classes| && sub < |w.classes| {
          answer := w.RegisterClass(cls, sub);
        }
      case IsSubclass(sub, cls) =>
        if cls < |w.classes| && sub < |w.classes| {
          var ok := w.SubclassCheck(cls, sub);
          answer := Verdict(ok);
        }
      case IsInstance(klass, typ, cls) =>
        if cls < |w.classes| && typ < |w.classes| && (klass == None || klass.value < |w.classes|) {
          var ok := w.InstanceCheck(cls, klass, typ);
          answer := Verdict(ok);
        }
    }
  }

  // Over every run the cached implementation gives, query by query, the
  // answers of plain reachability.
  method ExecuteAll(ops: seq<Op>) returns (answers: seq<Answer>)
    ensures answers == Run(ops).1
  {
    var w := new AbcWorld();
    answers := [];
    for i := 0 to |ops|
      invariant w.Valid() && fresh(w) && fresh(set c | c in w.classes)
      invariant (State(|w.classes|, w.graph), answers) == Run(ops[..i])
    {
      var answer := Execute(w, ops[i]);
      answers := answers + [answer];
      assert ops[..i + 1][..i] == ops[..i];
    }
    assert ops[..|ops|] == ops;
  }
}
