// WeakSet: a set that holds its members weakly and puts off removing dead
// references while it is being iterated
// (src/scalarizr/externals/_weakrefset.py).
module WeakSets {
  import opened Sequences

  // Objects are numbered in the order of their creation and never come back;
  // a weak reference is identified with the object it was made for.

  datatype Op =
    | Create
    | Die(item: nat)
    | Add(item: nat)
    | Discard(item: nat)
    | Remove(item: nat)
    | Pop
    | Clear
    | Contains(item: nat)
    | Length
    | EnterIteration(guard: nat)
    | ExitIteration(guard: nat)

  datatype Output = Done | KeyError | Popped(item: nat) | Verdict(b: bool) | Size(n: nat)

  // What a weak set means: the objects alive, and those among them it has.
  datatype State = State(born: nat, alive: set<nat>, members: set<nat>)

  ghost predicate WellFormed(s: State) {
    s.members <= s.alive && forall x :: x in s.alive ==> x < s.born
  }

  // An operation can only be applied to an object that is still alive.
  predicate Applicable(alive: set<nat>, op: Op) {
    (op.Add? || op.Discard? || op.Remove? || op.Contains?) ==> op.item in alive
  }

  ghost predicate Allowed(s: State, op: Op, out: Output) {
    match op
    case Remove(x) => out == if x in s.members then Done else KeyError
    case Pop => if s.members == {} then out == KeyError else out.Popped? && out.item in s.members
    case Contains(x) => out == Verdict(x in s.members)
    case Length => out == Size(|s.members|)
    case _ => out == Done
  }

  ghost function After(s: State, op: Op, out: Output): State {
    match op
    case Create => s.(born := s.born + 1, alive := s.alive + {s.born})
    case Die(x) => s.(alive := s.alive - {x}, members := s.members - {x})
    case Add(x) => s.(members := s.members + {x})
    case Discard(x) => s.(members := s.members - {x})
    case Remove(x) => s.(members := s.members - {x})
    case Pop => if out.Popped? then s.(members := s.members - {out.item}) else s
    case Clear => s.(members := {})
    case _ => s
  }

  // The state after a run, and whether every output in it is right.
  ghost function Run(ops: seq<Op>, outs: seq<Output>): (State, bool)
    requires |ops| == |outs|
  {
    if ops == [] then (State(0, {}, {}), true)
    else
      var n := |ops| - 1;
      var (s, legal) := Run(ops[..n], outs[..n]);
      if Applicable(s.alive, ops[n]) then (After(s, ops[n], outs[n]), legal && Allowed(s, ops[n], outs[n]))
      else (s, legal)
  }

  // --- What the outputs say

  function Births(ops: seq<Op>): nat {
    if ops == [] then 0 else Births(ops[..|ops| - 1]) + if ops[|ops| - 1].Create? then 1 else 0
  }

  // Object x has been created and has not died since.
  ghost predicate IsAlive(ops: seq<Op>, x: nat) {
    exists i :: 0 <= i < |ops| && ops[i].Create? && Births(ops[..i]) == x
             && forall j :: i < j < |ops| ==> ops[j] != Die(x)
  }

  // Does the operation, with its output, take x out of the set?
  predicate Removes(op: Op, out: Output, x: nat) {
    op == Discard(x) || op == Remove(x) || op == Clear || op == Die(x) || (op == Pop && out == Popped(x))
  }

  // Object x has been added while it was alive, and not removed since.
  ghost predicate Held(ops: seq<Op>, outs: seq<Output>, x: nat)
    requires |ops| == |outs|
  {
    exists i :: 0 <= i < |ops| && ops[i] == Add(x) && IsAlive(ops[..i], x)
             && forall j :: i < j < |ops| ==> !Removes(ops[j], outs[j], x)
  }

  ghost function Living(ops: seq<Op>): set<nat> {
    set x: nat | x < Births(ops) && IsAlive(ops, x)
  }

  ghost function Members(ops: seq<Op>, outs: seq<Output>): set<nat>
    requires |ops| == |outs|
  {
    set x: nat | x < Births(ops) && Held(ops, outs, x)
  }

  // The answer to operation i, told by the operations before it and what they
  // gave. Nothing is said of an operation on an object that is not alive.
  ghost predicate RightAt(ops: seq<Op>, outs: seq<Output>, i: nat)
    requires i < |ops| == |outs|
  {
    var before, past, out := ops[..i], outs[..i], outs[i];
    match ops[i]
    case Contains(x) => x in Living(before) ==> out == Verdict(Held(before, past, x))
    case Remove(x) => x in Living(before) ==> out == if Held(before, past, x) then Done else KeyError
    case Add(x) => x in Living(before) ==> out == Done
    case Discard(x) => x in Living(before) ==> out == Done
    case Pop =>
      if Members(before, past) == {} then out == KeyError else out.Popped? && Held(before, past, out.item)
    case Length => out == Size(|Members(before, past)|)
    case _ => out == Done
  }

  lemma StaysAlive(ops: seq<Op>, op: Op, x: nat)
    requires (op.Create? && Births(ops) == x) || (IsAlive(ops, x) && op != Die(x))
    ensures IsAlive(ops + [op], x)
  {
    var all := ops + [op];
    if op.Create? && Births(ops) == x {
      assert all[|ops|].Create? && all[..|ops|] == ops;
    } else {
      var i :| 0 <= i < |ops| && ops[i].Create? && Births(ops[..i]) == x
            && forall j :: i < j < |ops| ==> ops[j] != Die(x);
      assert all[i].Create? && all[..i] == ops[..i];
      assert forall j :: i < j < |all| ==> all[j] == if j < |ops| then ops[j] else op;
    }
  }

  lemma WasAlive(ops: seq<Op>, op: Op, x: nat)
    requires IsAlive(ops + [op], x)
    ensures (op.Create? && Births(ops) == x) || (IsAlive(ops, x) && op != Die(x))
  {
    var all := ops + [op];
    var i :| 0 <= i < |all| && all[i].Create? && Births(all[..i]) == x
          && forall j :: i < j < |all| ==> all[j] != Die(x);
    assert all[..i] == ops[..i];
    if i < |ops| {
      assert ops[i].Create? && all[|ops|] != Die(x);
      forall j | i < j < |ops|
        ensures ops[j] != Die(x)
      {
        assert all[j] == ops[j];
      }
    } else {
      assert ops[..i] == ops;
    }
  }

  lemma AliveOneMore(ops: seq<Op>, op: Op, x: nat)
    ensures IsAlive(ops + [op], x) <==> (op.Create? && Births(ops) == x) || (IsAlive(ops, x) && op != Die(x))
  {
    if IsAlive(ops + [op], x) {
      WasAlive(ops, op, x);
    }
    if (op.Create? && Births(ops) == x) || (IsAlive(ops, x) && op != Die(x)) {
      StaysAlive(ops, op, x);
    }
  }

  lemma StaysHeld(ops: seq<Op>, outs: seq<Output>, op: Op, out: Output, x: nat)
    requires |ops| == |outs|
    requires (op == Add(x) && IsAlive(ops, x)) || (Held(ops, outs, x) && !Removes(op, out, x))
    ensures Held(ops + [op], outs + [out], x)
  {
    var all, allOuts := ops + [op], outs + [out];
    if op == Add(x) && IsAlive(ops, x) {
      assert all[|ops|] == Add(x) && all[..|ops|] == ops;
    } else {
      var i :| 0 <= i < |ops| && ops[i] == Add(x) && IsAlive(ops[..i], x)
            && forall j :: i < j < |ops| ==> !Removes(ops[j], outs[j], x);
      assert all[i] == Add(x) && all[..i] == ops[..i];
      assert forall j :: i < j < |all| ==> all[j] == if j < |ops| then ops[j] else op;
    }
  }

  lemma WasHeld(ops: seq<Op>, outs: seq<Output>, op: Op, out: Output, x: nat)
    requires |ops| == |outs| && Held(ops + [op], outs + [out], x)
    ensures (op == Add(x) && IsAlive(ops, x)) || (Held(ops, outs, x) && !Removes(op, out, x))
  {
    var all, allOuts := ops + [op], outs + [out];
    var i :| 0 <= i < |all| && all[i] == Add(x) && IsAlive(all[..i], x)
          && forall j :: i < j < |all| ==> !Removes(all[j], allOuts[j], x);
    assert all[..i] == ops[..i];
    if i < |ops| {
      assert ops[i] == Add(x) && !Removes(all[|ops|], allOuts[|ops|], x);
      forall j | i < j < |ops|
        ensures !Removes(ops[j], outs[j], x)
      {
        assert all[j] == ops[j] && allOuts[j] == outs[j];
      }
    } else {
      assert ops[..i] == ops;
    }
  }

  lemma HeldOneMore(ops: seq<Op>, outs: seq<Output>, op: Op, out: Output, x: nat)
    requires |ops| == |outs|
    ensures Held(ops + [op], outs + [out], x) <==>
              (op == Add(x) && IsAlive(ops, x)) || (Held(ops, outs, x) && !Removes(op, out, x))
  {
    if Held(ops + [op], outs + [out], x) {
      WasHeld(ops, outs, op, out, x);
    }
    if (op == Add(x) && IsAlive(ops, x)) || (Held(ops, outs, x) && !Removes(op, out, x)) {
      StaysHeld(ops, outs, op, out, x);
    }
  }

  lemma {:induction false} AliveIsBorn(ops: seq<Op>, x: nat)
    requires IsAlive(ops, x)
    ensures x < Births(ops)
  {
    var n := |ops| - 1;
    assert ops[..n] + [ops[n]] == ops;
    AliveOneMore(ops[..n], ops[n], x);
    if IsAlive(ops[..n], x) {
      AliveIsBorn(ops[..n], x);
    }
  }

  // A member is alive.
  lemma {:induction false} HeldIsAlive(ops: seq<Op>, outs: seq<Output>, x: nat)
    requires |ops| == |outs| && Held(ops, outs, x)
    ensures IsAlive(ops, x)
    decreases |ops|
  {
    var n := |ops| - 1;
    assert ops[..n] + [ops[n]] == ops && outs[..n] + [outs[n]] == outs;
    HeldOneMore(ops[..n], outs[..n], ops[n], outs[n], x);
    AliveOneMore(ops[..n], ops[n], x);
    if Held(ops[..n], outs[..n], x) {
      HeldIsAlive(ops[..n], outs[..n], x);
    }
  }

  lemma MemberOneMore(ops: seq<Op>, outs: seq<Output>, op: Op, out: Output, x: nat)
    requires |ops| == |outs|
    ensures x in Living(ops + [op]) <==> (op.Create? && Births(ops) == x) || (x in Living(ops) && op != Die(x))
    ensures x in Members(ops + [op], outs + [out]) <==>
              (op == Add(x) && x in Living(ops)) || (x in Members(ops, outs) && !Removes(op, out, x))
  {
    AliveOneMore(ops, op, x);
    HeldOneMore(ops, outs, op, out, x);
    assert (ops + [op])[..|ops|] == ops;
    if IsAlive(ops, x) {
      AliveIsBorn(ops, x);
    }
    if IsAlive(ops + [op], x) {
      AliveIsBorn(ops + [op], x);
    }
    if Held(ops, outs, x) {
      HeldIsAlive(ops, outs, x);
    }
    if Held(ops + [op], outs + [out], x) {
      HeldIsAlive(ops + [op], outs + [out], x);
    }
  }

  lemma AfterTells(s: State, op: Op, out: Output, x: nat)
    requires s.members <= s.alive
    ensures var s' := if Applicable(s.alive, op) then After(s, op, out) else s;
      && s'.born == s.born + (if op.Create? then 1 else 0)
      && (x in s'.alive <==> (op.Create? && s.born == x) || (x in s.alive && op != Die(x)))
      && (x in s'.members <==> (op == Add(x) && x in s.alive) || (x in s.members && !Removes(op, out, x)))
  {
  }

  lemma MembersAreLiving(ops: seq<Op>, outs: seq<Output>)
    requires |ops| == |outs|
    ensures Members(ops, outs) <= Living(ops)
  {
    forall x | x in Members(ops, outs)
      ensures x in Living(ops)
    {
      HeldIsAlive(ops, outs, x);
    }
  }

  lemma StepTells(ops: seq<Op>, outs: seq<Output>, op: Op, out: Output)
    requires |ops| == |outs| && Members(ops, outs) <= Living(ops)
    ensures var s := State(Births(ops), Living(ops), Members(ops, outs));
            var s' := if Applicable(s.alive, op) then After(s, op, out) else s;
            s' == State(Births(ops + [op]), Living(ops + [op]), Members(ops + [op], outs + [out]))
  {
    var s := State(Births(ops), Living(ops), Members(ops, outs));
    var s' := if Applicable(s.alive, op) then After(s, op, out) else s;
    assert (ops + [op])[..|ops|] == ops;
    AfterTells(s, op, out, 0);
    forall x: nat
      ensures x in s'.alive <==> x in Living(ops + [op])
      ensures x in s'.members <==> x in Members(ops + [op], outs + [out])
    {
      MemberOneMore(ops, outs, op, out, x);
      AfterTells(s, op, out, x);
    }
    assert s'.alive == Living(ops + [op]) && s'.members == Members(ops + [op], outs + [out]);
  }

  // The state after a run, told by its operations and outputs.
  lemma {:induction false} StateTells(ops: seq<Op>, outs: seq<Output>)
    requires |ops| == |outs|
    ensures Run(ops, outs).0 == State(Births(ops), Living(ops), Members(ops, outs))
    decreases |ops|
  {
    if ops != [] {
      var n := |ops| - 1;
      StateTells(ops[..n], outs[..n]);
      MembersAreLiving(ops[..n], outs[..n]);
      assert ops[..n] + [ops[n]] == ops && outs[..n] + [outs[n]] == outs;
      StepTells(ops[..n], outs[..n], ops[n], outs[n]);
    }
  }

  // The answer to the last operation is right exactly when it is what the
  // operations before it tell.
  lemma LastRight(ops: seq<Op>, outs: seq<Output>)
    requires ops != [] && |ops| == |outs|
    ensures var n := |ops| - 1;
            var s := State(Births(ops[..n]), Living(ops[..n]), Members(ops[..n], outs[..n]));
            RightAt(ops, outs, n) <==> (Applicable(s.alive, ops[n]) ==> Allowed(s, ops[n], outs[n]))
  {
    var n := |ops| - 1;
    forall x: nat | Held(ops[..n], outs[..n], x)
      ensures x in Members(ops[..n], outs[..n])
    {
      HeldIsAlive(ops[..n], outs[..n], x);
      AliveIsBorn(ops[..n], x);
    }
  }

  // The outputs of a run are right exactly when each is what the operations
  // before it tell.
  lemma {:induction false} RunTells(ops: seq<Op>, outs: seq<Output>)
    requires |ops| == |outs|
    ensures Run(ops, outs).1 <==> forall i :: 0 <= i < |ops| ==> RightAt(ops, outs, i)
    decreases |ops|
  {
    if ops != [] {
      var n := |ops| - 1;
      StateTells(ops[..n], outs[..n]);
      RunTells(ops[..n], outs[..n]);
      LastRight(ops, outs);
      forall i | 0 <= i < n
        ensures RightAt(ops, outs, i) <==> RightAt(ops[..n], outs[..n], i)
      {
        assert ops[..n][..i] == ops[..i] && outs[..n][..i] == outs[..i];
      }
    }
  }

  class WeakSet {
    var born: nat           // the heap around the set
    var alive: set<nat>
    var data: set<nat>      // the references held
    var pendingRemovals: seq<nat>
    var iterating: set<nat> // the active iteration guards

    // Every dead reference still held is pending, and nothing is pending
    // unless an iteration is going on.
    ghost predicate Valid()
      reads this
    {
      Sound() && (iterating == {} ==> pendingRemovals == [])
    }

    ghost predicate Sound()
      reads this
    {
      && (forall x :: x in alive ==> x < born)
      && (forall x :: x in data ==> x < born)
      && (forall x :: x in data && x !in alive ==> x in pendingRemovals)
      && (forall x :: x in pendingRemovals ==> x < born && x !in alive)
    }

    ghost function Value(): State
      reads this
    {
      State(born, alive, data * alive)
    }

    constructor ()
      ensures Valid() && Value() == State(0, {}, {}) && iterating == {}
    {
      born, alive, data, pendingRemovals, iterating := 0, {}, {}, [], {};
    }

    method CommitRemovals()
      requires Sound()
      modifies this`data, this`pendingRemovals
      ensures Valid() && pendingRemovals == [] && data == old(data) * alive
    {
      while pendingRemovals != []
        invariant data <= old(data) && old(data) * alive <= data
        invariant forall x :: x in data && x !in alive ==> x in pendingRemovals
        invariant forall x :: x in pendingRemovals ==> x < born && x !in alive
        decreases |pendingRemovals|
      {
        var n := |pendingRemovals| - 1;
        var x := pendingRemovals[n];
        assert forall y :: y in pendingRemovals <==> y in pendingRemovals[..n] || y == x;
        pendingRemovals := pendingRemovals[..n];
        data := data - {x};
      }
      assert data == old(data) * alive;
    }

    method CommitIfPending()
      requires Sound()
      modifies this`data, this`pendingRemovals
      ensures Valid() && pendingRemovals == [] && data == old(data) * alive
    {
      if pendingRemovals != [] {
        CommitRemovals();
      }
      assert data == data * alive;
    }

    method NewObject()
      requires Valid()
      modifies this`born, this`alive
      ensures Valid() && Value() == After(old(Value()), Create, Done)
    {
      born, alive := born + 1, alive + {born};
      assert data * alive == old(data * alive);
    }

    // An object dies; the callback of its reference, if the set holds one,
    // removes the reference now or after the iterations.
    method ObjectDies(x: nat)
      requires Valid()
      modifies this`alive, this`data, this`pendingRemovals
      ensures Valid() && Value() == After(old(Value()), Die(x), Done)
      ensures iterating != {} ==> data == old(data)
    {
      if x !in alive {
        assert data * alive - {x} == data * alive;
        assert alive - {x} == alive;
        return;
      }
      alive := alive - {x};
      if x in data {
        if iterating != {} {
          pendingRemovals := pendingRemovals + [x];
        } else {
          data := data - {x};
        }
      }
      assert data * alive == old(data * alive) - {x};
    }

    method AddItem(x: nat)
      requires Valid() && x in alive
      modifies this`data, this`pendingRemovals
      ensures Valid() && Value() == After(old(Value()), Add(x), Done)
    {
      CommitIfPending();
      data := data + {x};
      assert data * alive == old(data * alive) + {x};
    }

    method DiscardItem(x: nat)
      requires Valid() && x in alive
      modifies this`data, this`pendingRemovals
      ensures Valid() && Value() == After(old(Value()), Discard(x), Done)
    {
      CommitIfPending();
      data := data - {x};
      assert data * alive == old(data * alive) - {x};
    }

    method RemoveItem(x: nat) returns (out: Output)
      requires Valid() && x in alive
      modifies this`data, this`pendingRemovals
      ensures Valid() && Allowed(old(Value()), Remove(x), out) && Value() == After(old(Value()), Remove(x), out)
    {
      CommitIfPending();
      out := if x in data then Done else KeyError;
      data := data - {x};
      assert data * alive == old(data * alive) - {x};
    }

    method PopItem() returns (out: Output)
      requires Valid()
      modifies this`data, this`pendingRemovals
      ensures Valid() && Allowed(old(Value()), Pop, out) && Value() == After(old(Value()), Pop, out)
    {
      CommitIfPending();
      assert data * alive == old(data * alive);
      while true
        invariant Valid() && data * alive == old(data * alive)
        decreases |data|
      {
        if data == {} {
          return KeyError;
        }
        var x :| x in data;
        data := data - {x};
        if x in alive {
          assert data * alive == old(data * alive) - {x};
          return Popped(x);
        }
        assert data * alive == old(data * alive);
      }
    }

    method ClearAll()
      requires Valid()
      modifies this`data, this`pendingRemovals
      ensures Valid() && Value() == After(old(Value()), Clear, Done)
    {
      CommitIfPending();
      data := {};
      assert data * alive == {};
    }

    method Has(x: nat) returns (b: bool)
      requires Valid() && x in alive
      ensures b <==> x in Value().members
    {
      b := x in data;
    }

    // len() counts the references that are still alive.
    method Len() returns (n: nat)
      requires Valid()
      ensures n == |Value().members|
    {
      n := 0;
      var unseen := data;
      while unseen != {}
        invariant unseen <= data
        invariant n == |(data - unseen) * alive|
        decreases unseen
      {
        var x :| x in unseen;
        var seen := data - unseen;
        unseen := unseen - {x};
        if x in alive {
          assert (data - unseen) * alive == seen * alive + {x};
          n := n + 1;
        } else {
          assert (data - unseen) * alive == seen * alive;
        }
      }
      assert (data - {}) * alive == data * alive;
    }

    method Enter(guard: nat)
      requires Valid()
      modifies this`iterating
      ensures Valid() && Value() == old(Value()) && iterating == old(iterating) + {guard}
    {
      iterating := iterating + {guard};
    }

    method Exit(guard: nat)
      requires Valid()
      modifies this`iterating, this`data, this`pendingRemovals
      ensures Valid() && Value() == old(Value()) && iterating == old(iterating) - {guard}
      ensures data == if iterating == {} then Value().members else old(data)
    {
      iterating := iterating - {guard};
      if iterating == {} {
        CommitRemovals();
        assert data * alive == old(data * alive);
      }
    }

    // for item in self: with objects dying between the steps, and their
    // references left in place until the guard exits.
    method Iterate(guard: nat, deaths: seq<nat>) returns (yielded: seq<nat>)
      requires Valid() && guard !in iterating
      modifies this`iterating, this`alive, this`data, this`pendingRemovals
      ensures Valid() && iterating == old(iterating)
      ensures Distinct(yielded)
      ensures forall x :: x in yielded ==> x in old(Value()).members
      ensures forall x :: x in Value().members ==> x in yielded
      ensures Value().members == old(Value()).members * alive && alive <= old(alive)
      ensures old(iterating) != {} ==> data == old(data)
    {
      Enter(guard);
      yielded := [];
      var unseen, step := data, 0;
      while unseen != {}
        invariant Valid() && iterating == old(iterating) + {guard} && data == old(data) && alive <= old(alive)
        invariant unseen <= data && born == old(born)
        invariant Distinct(yielded) && forall x :: x in yielded ==> x in (data - unseen) * old(alive)
        invariant forall x :: x in (data - unseen) * alive ==> x in yielded
        decreases unseen
      {
        var x :| x in unseen;
        assert x !in yielded;
        unseen := unseen - {x};
        if x in alive {
          yielded := yielded + [x];
        }
        if step < |deaths| {
          ObjectDies(deaths[step]);
          step := step + 1;
        }
      }
      Exit(guard);
    }
  }

  method Execute(w: WeakSet, op: Op) returns (out: Output)
    requires w.Valid() && Applicable(w.alive, op)
    modifies w
    ensures w.Valid() && Allowed(old(w.Value()), op, out) && w.Value() == After(old(w.Value()), op, out)
  {
    out := Done;
    match op {
      case Create => w.NewObject();
      case Die(x) => w.ObjectDies(x);
      case Add(x) => w.AddItem(x);
      case Discard(x) => w.DiscardItem(x);
      case Remove(x) => out := w.RemoveItem(x);
      case Pop => out := w.PopItem();
      case Clear => w.ClearAll();
      case Contains(x) =>
        var b := w.Has(x);
        out := Verdict(b);
      case Length =>
        var n := w.Len();
        out := Size(n);
      case EnterIteration(guard) => w.Enter(guard);
      case ExitIteration(guard) => // a guard exits once
        if guard in w.iterating {
          w.Exit(guard);
        }
    }
  }

  // In every run the weak set answers as a plain set of the live objects in
  // it would, whatever iterations are under way.
  method ExecuteAll(ops: seq<Op>) returns (outs: seq<Output>)
    ensures |outs| == |ops| && Run(ops, outs).1
    ensures forall i :: 0 <= i < |ops| ==> RightAt(ops, outs, i)
  {
    var w := new WeakSet();
    outs := [];
    for i := 0 to |ops|
      invariant fresh(w) && w.Valid() && |outs| == i
      invariant Run(ops[..i], outs) == (w.Value(), true)
    {
      ghost var before := outs;
      if Applicable(w.alive, ops[i]) {
        var out := Execute(w, ops[i]);
        outs := outs + [out];
      } else {
        outs := outs + [Done];
      }
      assert ops[..i + 1][..i] == ops[..i] && outs[..i] == before;
    }
    assert ops[..|ops|] == ops;
    RunTells(ops, outs);
  }
}
