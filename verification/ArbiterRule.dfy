// How the master of a MongoDB replica set keeps the number of voting members
// odd by registering and removing an arbiter (src/scalarizr/handlers/mongodb.py,
// on_HostUp and on_HostDown; src/scalarizr/services/mongodb.py).
module ArbiterRule {

  datatype Member = Member(host: string, port: nat)

  const REPLICA_PORT := 27018
  const ARBITER_PORT := 27020

  // The configured members of a replica set.
  datatype Members = Members(replicas: set<Member>, arbiters: set<Member>)

  ghost predicate WellFormed(m: Members) {
    && (forall x :: x in m.replicas ==> x.port == REPLICA_PORT)
    && (forall x :: x in m.arbiters ==> x.port == ARBITER_PORT)
  }

  ghost predicate Odd(m: Members) {
    (|m.replicas| + |m.arbiters|) % 2 == 1
  }

  // An odd number of voters, at most one of them an arbiter.
  ghost predicate Settled(m: Members) {
    WellFormed(m) && Odd(m) && |m.arbiters| <= 1
  }

  function ArbiterOn(host: string): Member {
    Member(host, ARBITER_PORT)
  }

  function Replica(host: string): Member {
    Member(host, REPLICA_PORT)
  }

  ghost function AfterHostUp(m: Members, self: string): Members {
    if |m.replicas| % 2 == 0 && m.arbiters == {} then m.(arbiters := {ArbiterOn(self)})
    else if |m.replicas| % 2 == 1 then m.(arbiters := {})
    else m
  }

  ghost function AfterHostDown(m: Members, self: string, down: string): Members {
    var replicas := m.replicas - {Replica(down)};
    Members(replicas, if |replicas| % 2 == 0 then m.arbiters - {ArbiterOn(down)} + {ArbiterOn(self)} else {})
  }

  // The replicas are left alone. An odd number of them needs no arbiter, and
  // for an even number without one there comes one on the master itself.
  lemma HostUpTells(m: Members, self: string)
    ensures var m' := AfterHostUp(m, self);
      && m'.replicas == m.replicas
      && (|m.replicas| % 2 == 1 ==> m'.arbiters == {})
      && (|m.replicas| % 2 == 0 ==> m'.arbiters == if m.arbiters == {} then {Member(self, 27020)} else m.arbiters)
  {
  }

  // Only the lost replica goes, and the arbiter on its host. An odd number of
  // replicas needs no arbiter, an even one gets one on the master itself.
  lemma HostDownTells(m: Members, self: string, down: string)
    ensures var m' := AfterHostDown(m, self, down);
      && m'.replicas == m.replicas - {Member(down, 27018)}
      && (|m'.replicas| % 2 == 1 ==> m'.arbiters == {})
      && (|m'.replicas| % 2 == 0 ==> m'.arbiters == m.arbiters - {Member(down, 27020)} + {Member(self, 27020)})
  {
  }

  // Whatever the members were, the master leaves an odd number of them except
  // when it meets an even number of replicas with a positive even number of
  // arbiters.
  lemma HostUpMakesOdd(m: Members, self: string)
    ensures Odd(AfterHostUp(m, self)) <==> !(|m.replicas| % 2 == 0 && |m.arbiters| % 2 == 0 && m.arbiters != {})
  {
    if |m.replicas| % 2 == 0 && m.arbiters == {} {
      assert |{ArbiterOn(self)}| == 1;
    }
  }

  lemma HostUpSettles(m: Members, self: string)
    requires WellFormed(m) && |m.arbiters| <= 1
    ensures Settled(AfterHostUp(m, self))
  {
    HostUpMakesOdd(m, self);
  }

  lemma ReplicaLost(m: Members, self: string, down: string)
    requires WellFormed(m) && Replica(down) in m.replicas
    ensures var m' := AfterHostDown(m, self, down);
      && WellFormed(m') && |m'.replicas| == |m.replicas| - 1
      && m'.arbiters == if |m.replicas| % 2 == 0 then {} else m.arbiters - {ArbiterOn(down)} + {ArbiterOn(self)}
  {
    var replicas := m.replicas - {Replica(down)};
    assert m.replicas == replicas + {Replica(down)};
  }

  lemma AtLeastTwo<T>(s: set<T>, x: T, y: T)
    requires x in s && y in s && x != y
    ensures |s| >= 2
  {
    assert |s - {x}| == |s| - 1 && y in s - {x};
  }

  lemma ArbiterMoves(arbiters: set<Member>, lost: Member, own: Member)
    ensures var moved := arbiters - {lost} + {own};
            if arbiters <= {lost, own} then |moved| == 1 else |moved| >= 2
  {
    var moved := arbiters - {lost} + {own};
    if arbiters <= {lost, own} {
      assert moved == {own};
    } else {
      var other :| other in arbiters && other !in {lost, own};
      AtLeastTwo(moved, other, own);
    }
  }

  // With at most one arbiter, losing a replica leaves the set settled exactly
  // when the number of replicas was even or no third host carries the arbiter.
  lemma HostDownSettles(m: Members, self: string, down: string)
    requires WellFormed(m) && |m.arbiters| <= 1 && Replica(down) in m.replicas
    ensures Settled(AfterHostDown(m, self, down))
       <==> |m.replicas| % 2 == 0 || m.arbiters <= {ArbiterOn(down), ArbiterOn(self)}
  {
    ReplicaLost(m, self, down);
    if |m.replicas| % 2 == 1 {
      ArbiterMoves(m.arbiters, ArbiterOn(down), ArbiterOn(self));
    }
  }

  // From a settled set, losing a replica always leaves a settled set, also
  // when the lost host carried the arbiter.
  lemma HostDownKeepsSettled(m: Members, self: string, down: string)
    requires Settled(m) && Replica(down) in m.replicas
    ensures Settled(AfterHostDown(m, self, down))
  {
    if |m.replicas| % 2 == 1 {
      assert m.arbiters == {};
    }
    HostDownSettles(m, self, down);
  }

  // The guard matters: a replica that joined but was not yet announced by a
  // HostUp, with the arbiter left on a former master, ends with two arbiters
  // and an even number of voters.
  lemma TwoArbitersArise()
    ensures var m := Members({Replica("a"), Replica("b"), Replica("c")}, {ArbiterOn("b")});
            && WellFormed(m) && |m.arbiters| == 1
            && |AfterHostDown(m, "a", "c").arbiters| == 2 && !Odd(AfterHostDown(m, "a", "c"))
  {
    var m := Members({Replica("a"), Replica("b"), Replica("c")}, {ArbiterOn("b")});
    assert "a" != "b" && "b" != "c" && "a" != "c" by {
      assert "a"[0] != "b"[0] && "b"[0] != "c"[0] && "a"[0] != "c"[0];
    }
    assert Replica("a") != Replica("b");
    assert m.replicas - {Replica("c")} == {Replica("a"), Replica("b")};
    assert m.arbiters - {ArbiterOn("c")} + {ArbiterOn("a")} == {ArbiterOn("a"), ArbiterOn("b")};
  }

  // A run on one master: replicas join (they are registered and then
  // announced) and go down.
  datatype Event = Join(host: string) | Down(host: string)

  ghost function Step(m: Members, self: string, e: Event): Members {
    match e
    case Join(host) => AfterHostUp(m.(replicas := m.replicas + {Replica(host)}), self)
    case Down(host) => if Replica(host) in m.replicas then AfterHostDown(m, self, host) else m
  }

  ghost function Run(m: Members, self: string, events: seq<Event>): Members
    decreases |events|
  {
    if events == [] then m else Run(Step(m, self, events[0]), self, events[1..])
  }

  // Is the last event about the host its joining, or was it there at first?
  predicate Joined(m: Members, events: seq<Event>, host: string) {
    if events == [] then Member(host, 27018) in m.replicas
    else
      var n := |events| - 1;
      if events[n] == Join(host) then true
      else if events[n] == Down(host) then false
      else Joined(m, events[..n], host)
  }

  lemma {:induction false} RunOneMore(m: Members, self: string, events: seq<Event>, e: Event)
    ensures Run(m, self, events + [e]) == Step(Run(m, self, events), self, e)
    decreases |events|
  {
    if events == [] {
      assert [] + [e] == [e] && [e][1..] == [];
    } else {
      assert (events + [e])[1..] == events[1..] + [e];
      RunOneMore(Step(m, self, events[0]), self, events[1..], e);
    }
  }

  // Which replicas there are after a run.
  lemma {:induction false} ReplicasTell(m: Members, self: string, events: seq<Event>, host: string)
    ensures Member(host, 27018) in Run(m, self, events).replicas <==> Joined(m, events, host)
    decreases |events|
  {
    if events != [] {
      var n := |events| - 1;
      ReplicasTell(m, self, events[..n], host);
      RunOneMore(m, self, events[..n], events[n]);
      assert events[..n] + [events[n]] == events;
    }
  }

  lemma {:induction false} EveryRunSettled(m: Members, self: string, events: seq<Event>)
    requires Settled(m)
    ensures Settled(Run(m, self, events))
    decreases |events|
  {
    if events != [] {
      var e := events[0];
      match e {
        case Join(host) => HostUpSettles(m.(replicas := m.replicas + {Replica(host)}), self);
        case Down(host) =>
          if Replica(host) in m.replicas {
            HostDownKeepsSettled(m, self, host);
          }
      }
      EveryRunSettled(Step(m, self, e), self, events[1..]);
    }
  }

  // The master's handlers, changing the replica set's configuration.
  class ReplicationMaster {
    const hostname: string
    var replicas: set<Member>
    var arbiters: set<Member>

    constructor (hostname: string, members: Members)
      requires WellFormed(members)
      ensures this.hostname == hostname && Current() == members
    {
      this.hostname := hostname;
      replicas, arbiters := members.replicas, members.arbiters;
    }

    ghost function Current(): Members
      reads this
    {
      Members(replicas, arbiters)
    }

    // A member that is already configured is not added again.
    method AddReplica(host: string, port: nat, arbiter: bool)
      modifies this
      ensures var known := Member(host, port) in old(replicas + arbiters);
        && replicas == (if known || arbiter then old(replicas) else old(replicas) + {Member(host, port)})
        && arbiters == (if known || !arbiter then old(arbiters) else old(arbiters) + {Member(host, port)})
    {
      var member := Member(host, port);
      if member in replicas + arbiters {
        return;
      }
      if arbiter {
        arbiters := arbiters + {member};
      } else {
        replicas := replicas + {member};
      }
    }

    method UnregisterSlave(host: string, port: nat)
      modifies this
      ensures replicas == old(replicas) - {Member(host, port)} && arbiters == old(arbiters) - {Member(host, port)}
    {
      replicas := replicas - {Member(host, port)};
      arbiters := arbiters - {Member(host, port)};
    }

    method UnregisterArbiters()
      requires WellFormed(Current())
      modifies this
      ensures arbiters == {} && replicas == old(replicas)
    {
      var listed := arbiters;
      while listed != {}
        invariant arbiters == listed <= old(arbiters) && replicas == old(replicas)
        decreases listed
      {
        var arbiter :| arbiter in listed;
        assert arbiter !in replicas;
        UnregisterSlave(arbiter.host, arbiter.port);
        listed := listed - {arbiter};
      }
    }

    // HostUp from another host of the master's own shard.
    method OnHostUp()
      requires WellFormed(Current())
      modifies this
      ensures Current() == AfterHostUp(old(Current()), hostname) && WellFormed(Current())
    {
      var r, a := |replicas|, |arbiters|;
      if r % 2 == 0 && a == 0 {
        AddReplica(hostname, ARBITER_PORT, true);
      } else if r % 2 != 0 && a != 0 {
        UnregisterArbiters();
      }
    }

    // HostDown of a registered replica.
    method OnHostDown(down: string)
      requires WellFormed(Current()) && Replica(down) in replicas
      modifies this
      ensures Current() == AfterHostDown(old(Current()), hostname, down) && WellFormed(Current())
    {
      RemoveHost(down);
      if |replicas| % 2 == 0 {
        AddReplica(hostname, ARBITER_PORT, true);
      } else {
        UnregisterArbiters();
      }
    }

    method RemoveHost(down: string)
      requires WellFormed(Current())
      modifies this
      ensures replicas == old(replicas) - {Replica(down)} && arbiters == old(arbiters) - {ArbiterOn(down)}
      ensures WellFormed(Current())
    {
      assert replicas - {ArbiterOn(down)} == replicas && arbiters - {Replica(down)} == arbiters;
      UnregisterSlave(down, REPLICA_PORT);
      if ArbiterOn(down) in arbiters {
        UnregisterSlave(down, ARBITER_PORT);
      }
    }
  }
}
