// The rs-0 start-up barrier of a MongoDB cluster: the first node of every
// shard waits until the first nodes of all other shards have announced
// themselves (src/scalarizr/handlers/mongodb.py, on_before_host_up).
module Barriers {
  import opened Wrappers

  datatype Status = Status(isReady: bool, isNotified: bool, ip: Option<string>)

  // A host of the role, as the scheduler lists it.
  datatype Host = Host(shard: nat, replica: nat, running: bool, ip: string)

  // Bypassed: some other host is already running and there is nothing to wait
  // for. Failed: an announcement came from a shard that is not in the table.
  datatype Phase = Outside | Waiting | LeftAllReady | Bypassed | Failed

  // --- What one node does

  // A node's address, its phase, its status table and the ids of the messages
  // it has handled.
  datatype Node = Node(ip: string, phase: Phase, table: map<nat, Status>, handled: set<string>)

  const UNKNOWN := Status(false, false, None)

  // An entry for every other shard.
  function EmptyTable(total: nat, shard: nat): (t: map<nat, Status>)
    ensures forall j: nat :: j in t <==> j < total && j != shard
    ensures forall j :: j in t ==> t[j] == UNKNOWN
  {
    if total == 0 then map[]
    else if total - 1 == shard then EmptyTable(total - 1, shard)
    else EmptyTable(total - 1, shard)[total - 1 := UNKNOWN]
  }

  predicate IsSelf(shard: nat, h: Host) {
    h.shard == shard && h.replica == 0
  }

  // The table filled from the listed hosts, up to the first that is running.
  function Filled(total: nat, shard: nat, hosts: seq<Host>): (map<nat, Status>, Phase) {
    if hosts == [] then (EmptyTable(total, shard), Waiting)
    else
      var h := hosts[|hosts| - 1];
      var (table, phase) := Filled(total, shard, hosts[..|hosts| - 1]);
      if phase.Bypassed? || IsSelf(shard, h) then (table, phase)
      else if h.running then (table, Bypassed)
      else if h.shard + 1 > total then (table, phase)
      else (table[h.shard := UNKNOWN.(ip := Some(h.ip))], phase)
  }

  function Entered(total: nat, shard: nat, ip: string, hosts: seq<Host>): Node {
    var (table, phase) := Filled(total, shard, hosts);
    Node(ip, phase, table, {})
  }

  // Can the node announce itself to a peer it has not announced itself to?
  predicate CanNotify(n: Node, peer: nat) {
    n.phase == Waiting && peer in n.table && !n.table[peer].isNotified && n.table[peer].ip.Some?
  }

  function Notified(n: Node, peer: nat): Node
    requires CanNotify(n, peer)
  {
    n.(table := n.table[peer := n.table[peer].(isNotified := true)])
  }

  // A HostInit (with the new address) or HostDown (with none) about the first
  // node of another shard resets that shard's entry.
  function Changed(n: Node, shard: nat, id: string, peer: nat, replica: nat, ip: Option<string>): Node {
    if n.phase != Waiting || id in n.handled || peer == shard then n
    else n.(table := if replica == 0 then n.table[peer := UNKNOWN.(ip := ip)] else n.table, handled := n.handled + {id})
  }

  // An announcement marks its sender as ready, and as notified too.
  function Announced(n: Node, peer: nat): Node {
    if n.phase != Waiting then n
    else if peer in n.table then n.(table := n.table[peer := Status(true, true, n.table[peer].ip)])
    else n.(phase := Failed)
  }

  predicate AllReady(table: map<nat, Status>) {
    forall j :: j in table ==> table[j].isReady
  }

  function Tested(n: Node): Node {
    if n.phase == Waiting && AllReady(n.table) then n.(phase := LeftAllReady) else n
  }

  // --- What a cluster does

  // An announcement on its way: who is ready, and the address it was sent to.
  datatype Packet = Packet(shard: nat, destination: string)

  datatype Action =
    | Enter(shard: nat, ip: string, hosts: seq<Host>)
    | Notify(shard: nat, peer: nat, delivered: bool)
    | HostInit(shard: nat, id: string, peer: nat, replica: nat, peerIp: string)
    | HostDown(shard: nat, id: string, peer: nat, replica: nat)
    | Receive(shard: nat, packet: nat)
    | TestAllReady(shard: nat)

  datatype Cluster = Cluster(nodes: seq<Node>, network: seq<Packet>)

  // What an action does to the node it concerns.
  function NodeStep(n: Node, network: seq<Packet>, total: nat, a: Action): Node {
    match a
    case Enter(shard, ip, hosts) => Entered(total, shard, ip, hosts)
    case Notify(_, peer, delivered) => if CanNotify(n, peer) && delivered then Notified(n, peer) else n
    case HostInit(shard, id, peer, replica, ip) => Changed(n, shard, id, peer, replica, Some(ip))
    case HostDown(shard, id, peer, replica) => Changed(n, shard, id, peer, replica, None)
    case Receive(_, k) =>
      if k < |network| && network[k].destination == n.ip then Announced(n, network[k].shard) else n
    case TestAllReady(_) => Tested(n)
  }

  // Packets stay in the network: they may be delivered late, repeatedly or
  // never.
  function NetworkStep(n: Node, network: seq<Packet>, a: Action): seq<Packet> {
    if a.Notify? && CanNotify(n, a.peer) && a.delivered
    then network + [Packet(a.shard, n.table[a.peer].ip.value)]
    else network
  }

  function Step(c: Cluster, a: Action): Cluster {
    if a.shard >= |c.nodes| then c
    else
      var n := c.nodes[a.shard];
      Cluster(c.nodes[a.shard := NodeStep(n, c.network, |c.nodes|, a)], NetworkStep(n, c.network, a))
  }

  // Any interleaving of the nodes and their messages; a shard's node may also
  // start again.
  function Run(total: nat, actions: seq<Action>): (c: Cluster)
    ensures |c.nodes| == total
  {
    if actions == [] then Cluster(seq(total, _ => Node("", Outside, map[], {})), [])
    else Step(Run(total, actions[..|actions| - 1]), actions[|actions| - 1])
  }

  // --- Safety

  ghost predicate HasEntered(actions: seq<Action>, shard: nat) {
    exists i :: 0 <= i < |actions| && actions[i].Enter? && actions[i].shard == shard
  }

  ghost predicate Covers(table: map<nat, Status>, total: nat, shard: nat) {
    forall j: nat :: j < total && j != shard ==> j in table
  }

  // The table covers the other shards, ready marks come only from nodes that
  // have entered, and who has left found them all set.
  ghost predicate Explained(n: Node, shard: nat, total: nat, actions: seq<Action>) {
    && (n.phase != Outside ==> Covers(n.table, total, shard) && HasEntered(actions, shard))
    && (n.phase == LeftAllReady ==> AllReady(n.table))
    && (forall j :: j in n.table && n.table[j].isReady ==> HasEntered(actions, j))
  }

  ghost predicate ClusterExplained(c: Cluster, actions: seq<Action>) {
    && (forall k :: 0 <= k < |c.nodes| ==> Explained(c.nodes[k], k, |c.nodes|, actions))
    && (forall p :: p in c.network ==> HasEntered(actions, p.shard))
  }

  lemma EnteredStays(actions: seq<Action>, a: Action)
    ensures forall s :: HasEntered(actions, s) ==> HasEntered(actions + [a], s)
    ensures a.Enter? ==> HasEntered(actions + [a], a.shard)
  {
    var after := actions + [a];
    forall s | HasEntered(actions, s)
      ensures HasEntered(after, s)
    {
      var i :| 0 <= i < |actions| && actions[i].Enter? && actions[i].shard == s;
      assert after[i] == actions[i];
    }
    assert after[|actions|] == a;
  }

  lemma {:induction false} FilledCovers(total: nat, shard: nat, hosts: seq<Host>)
    ensures var (table, phase) := Filled(total, shard, hosts);
      && Covers(table, total, shard) && (phase == Waiting || phase == Bypassed)
      && forall j :: j in table ==> !table[j].isReady
  {
    if hosts != [] {
      FilledCovers(total, shard, hosts[..|hosts| - 1]);
    }
  }

  lemma NodeStepExplained(n: Node, network: seq<Packet>, total: nat, actions: seq<Action>, a: Action)
    requires Explained(n, a.shard, total, actions)
    requires forall p :: p in network ==> HasEntered(actions, p.shard)
    ensures Explained(NodeStep(n, network, total, a), a.shard, total, actions + [a])
  {
    EnteredStays(actions, a);
    if a.Enter? {
      FilledCovers(total, a.shard, a.hosts);
    }
  }

  lemma {:induction false} EveryRunExplained(total: nat, actions: seq<Action>)
    ensures ClusterExplained(Run(total, actions), actions)
  {
    if actions != [] {
      var before, a := actions[..|actions| - 1], actions[|actions| - 1];
      var c := Run(total, before);
      EveryRunExplained(total, before);
      EnteredStays(before, a);
      assert before + [a] == actions;
      if a.shard < total {
        NodeStepExplained(c.nodes[a.shard], c.network, total, before, a);
      }
    }
  }

  // In every reachable state, if a node has left because all were ready, then
  // the first nodes of all shards have entered.
  lemma EveryRunSafe(total: nat, actions: seq<Action>, k: nat, j: nat)
    requires k < total && j < total && Run(total, actions).nodes[k].phase == LeftAllReady
    ensures HasEntered(actions, j)
  {
    EveryRunExplained(total, actions);
    assert Explained(Run(total, actions).nodes[k], k, total, actions);
    assert j != k ==> j in Run(total, actions).nodes[k].table;
  }

  // --- What the history tells

  // Some host other than the first node of the shard runs already.
  ghost predicate Busy(hosts: seq<Host>, k: nat) {
    exists h :: h in hosts && h.running && !(h.shard == k && h.replica == 0)
  }

  // The address listed last for shard j, as the first node of shard k sees it:
  // for its own shard that of another replica.
  function ListedIp(hosts: seq<Host>, k: nat, j: nat): Option<string> {
    if hosts == [] then None
    else
      var h := hosts[|hosts| - 1];
      if h.shard == j && !(j == k && h.replica == 0) then Some(h.ip) else ListedIp(hosts[..|hosts| - 1], k, j)
  }

  lemma {:induction false} FilledTells(total: nat, k: nat, hosts: seq<Host>, j: nat)
    ensures var (table, phase) := Filled(total, k, hosts);
      && phase == (if Busy(hosts, k) then Bypassed else Waiting)
      && (phase == Waiting ==>
            && (j in table <==> j < total && (j != k || ListedIp(hosts, k, j).Some?))
            && (j in table ==> table[j] == Status(false, false, ListedIp(hosts, k, j))))
  {
    if hosts != [] {
      var front, h := hosts[..|hosts| - 1], hosts[|hosts| - 1];
      FilledTells(total, k, front, j);
      assert hosts == front + [h];
      assert Busy(hosts, k) <==> Busy(front, k) || (h.running && !(h.shard == k && h.replica == 0));
    }
  }

  // The address with which the node of shard k entered last.
  function Address(actions: seq<Action>, k: nat): string {
    if actions == [] then ""
    else
      var a := actions[|actions| - 1];
      if a.Enter? && a.shard == k then a.ip else Address(actions[..|actions| - 1], k)
  }

  // Has the node had the message since it entered?
  predicate HasHandled(actions: seq<Action>, k: nat, id: string) {
    actions != [] &&
    var a := actions[|actions| - 1];
    !(a.Enter? && a.shard == k) &&
    (((a.HostInit? || a.HostDown?) && a.shard == k && a.peer != k && a.id == id)
     || HasHandled(actions[..|actions| - 1], k, id))
  }

  // What the node of shard k knows of shard j: not ready since it entered or
  // was told of a new or a lost first node, ready since an announcement.
  function View(total: nat, actions: seq<Action>, k: nat, j: nat): Option<Status> {
    if actions == [] then None
    else
      var before, a := actions[..|actions| - 1], actions[|actions| - 1];
      var known := View(total, before, k, j);
      if a.shard != k then known
      else
        match a
        case Enter(_, _, hosts) =>
          if j < total && (j != k || ListedIp(hosts, k, j).Some?)
          then Some(Status(false, false, ListedIp(hosts, k, j))) else None
        case Notify(_, peer, delivered) =>
          if peer == j && delivered && known.Some? && known.value.ip.Some?
          then Some(known.value.(isNotified := true)) else known
        case HostInit(_, id, peer, replica, ip) =>
          if peer == j != k && replica == 0 && !HasHandled(before, k, id)
          then Some(Status(false, false, Some(ip))) else known
        case HostDown(_, id, peer, replica) =>
          if peer == j != k && replica == 0 && !HasHandled(before, k, id)
          then Some(Status(false, false, None)) else known
        case Receive(_, p) =>
          var network := Run(total, before).network;
          if p < |network| && network[p] == Packet(j, Address(before, k)) && known.Some?
          then Some(Status(true, true, known.value.ip)) else known
        case TestAllReady(_) => known
  }

  // The node's address and, while it waits, its table are what the history
  // tells.
  ghost predicate Informed(n: Node, total: nat, actions: seq<Action>, k: nat) {
    && n.ip == Address(actions, k)
    && (n.phase == Waiting ==>
          && (forall id :: id in n.handled <==> HasHandled(actions, k, id))
          && (forall j: nat :: (if j in n.table then Some(n.table[j]) else None) == View(total, actions, k, j)))
  }

  lemma StepInforms(n: Node, total: nat, actions: seq<Action>, a: Action)
    requires Informed(n, total, actions, a.shard)
    ensures Informed(NodeStep(n, Run(total, actions).network, total, a), total, actions + [a], a.shard)
  {
    var k := a.shard;
    var n' := NodeStep(n, Run(total, actions).network, total, a);
    assert (actions + [a])[..|actions|] == actions;
    if n'.phase == Waiting {
      forall j: nat
        ensures (if j in n'.table then Some(n'.table[j]) else None) == View(total, actions + [a], k, j)
      {
        if a.Enter? {
          FilledTells(total, k, a.hosts, j);
        } else {
          assert (if j in n.table then Some(n.table[j]) else None) == View(total, actions, k, j);
        }
      }
    }
  }

  lemma {:induction false} EveryRunInforms(total: nat, actions: seq<Action>, k: nat)
    requires k < total
    ensures Informed(Run(total, actions).nodes[k], total, actions, k)
  {
    if actions != [] {
      var before, a := actions[..|actions| - 1], actions[|actions| - 1];
      EveryRunInforms(total, before, k);
      assert before + [a] == actions;
      if a.shard == k {
        StepInforms(Run(total, before).nodes[k], total, before, a);
      }
    }
  }

  // Every shard the node knows of is ready.
  ghost predicate KnowsAllReady(total: nat, actions: seq<Action>, k: nat) {
    forall j: nat :: View(total, actions, k, j).Some? ==> View(total, actions, k, j).value.isReady
  }

  // What an action does to a node, told by the history: it waits after it has
  // entered unless some other host runs, leaves at a test exactly when every
  // shard it knows of is ready, and fails at an announcement of one it does not
  // know.
  lemma PhaseTells(total: nat, actions: seq<Action>, a: Action, k: nat)
    requires k < total
    ensures var was, now := Run(total, actions).nodes[k].phase, Run(total, actions + [a]).nodes[k].phase;
            if a.shard != k then now == was
            else if a.Enter? then now == if Busy(a.hosts, k) then Bypassed else Waiting
            else if was != Waiting then now == was
            else if a.TestAllReady? then now == if KnowsAllReady(total, actions, k) then LeftAllReady else Waiting
            else
              var network := Run(total, actions).network;
              now == if a.Receive? && a.packet < |network| && network[a.packet].destination == Address(actions, k)
                        && View(total, actions, k, network[a.packet].shard) == None
                     then Failed else Waiting
  {
    var n := Run(total, actions).nodes[k];
    assert (actions + [a])[..|actions|] == actions;
    EveryRunInforms(total, actions, k);
    if a.shard == k && a.Enter? {
      FilledTells(total, k, a.hosts, 0);
    }
    if n.phase == Waiting {
      forall j: nat
        ensures j in n.table <==> View(total, actions, k, j).Some?
        ensures j in n.table ==> n.table[j] == View(total, actions, k, j).value
      {
        assert (if j in n.table then Some(n.table[j]) else None) == View(total, actions, k, j);
      }
    }
  }

  // What is sent: an announcement to a peer that is not marked as notified and
  // whose address is known, if the message gets through.
  lemma SendingTells(total: nat, actions: seq<Action>, a: Action)
    ensures var before, after := Run(total, actions), Run(total, actions + [a]);
            if && a.Notify? && a.delivered && a.shard < total && before.nodes[a.shard].phase == Waiting
               && var known := View(total, actions, a.shard, a.peer);
                  known.Some? && !known.value.isNotified && known.value.ip.Some?
            then after.network == before.network
                                  + [Packet(a.shard, View(total, actions, a.shard, a.peer).value.ip.value)]
            else after.network == before.network
  {
    assert (actions + [a])[..|actions|] == actions;
    if a.shard < total {
      EveryRunInforms(total, actions, a.shard);
      var n := Run(total, actions).nodes[a.shard];
      if a.Notify? && n.phase == Waiting {
        assert (if a.peer in n.table then Some(n.table[a.peer]) else None) == View(total, actions, a.shard, a.peer);
      }
    }
  }

  // An announcement that arrives makes its sender ready and changes nothing
  // else.
  lemma Arrives(total: nat, actions: seq<Action>, k: nat, j: nat, p: nat)
    requires k < total && Run(total, actions).nodes[k].phase == Waiting && View(total, actions, k, j).Some?
    requires p < |Run(total, actions).network| && Run(total, actions).network[p] == Packet(j, Address(actions, k))
    ensures var after := actions + [Receive(k, p)];
            && Run(total, after).nodes[k].phase == Waiting
            && Run(total, after).network == Run(total, actions).network
            && Address(after, k) == Address(actions, k)
            && (forall i: nat :: i != j ==> View(total, after, k, i) == View(total, actions, k, i))
            && View(total, after, k, j) == Some(Status(true, true, View(total, actions, k, j).value.ip))
  {
    PhaseTells(total, actions, Receive(k, p), k);
    SendingTells(total, actions, Receive(k, p));
    assert (actions + [Receive(k, p)])[..|actions|] == actions;
  }

  // A waiting node to which an announcement of every shard not ready is on its
  // way can leave.
  lemma CanLeave(total: nat, actions: seq<Action>, k: nat, unready: set<nat>) returns (more: seq<Action>)
    requires k < total && Run(total, actions).nodes[k].phase == Waiting
    requires forall j: nat :: j in unready <==>
               View(total, actions, k, j).Some? && !View(total, actions, k, j).value.isReady
    requires forall j :: j in unready ==> Packet(j, Address(actions, k)) in Run(total, actions).network
    ensures Run(total, actions + more).nodes[k].phase == LeftAllReady
    ensures forall i :: 0 <= i < |more| ==> more[i].shard == k && (more[i].Receive? || more[i].TestAllReady?)
    decreases |unready|
  {
    if unready == {} {
      more := [TestAllReady(k)];
      PhaseTells(total, actions, TestAllReady(k), k);
    } else {
      var network := Run(total, actions).network;
      var j :| j in unready;
      var p: nat :| p < |network| && network[p] == Packet(j, Address(actions, k));
      var a := Receive(k, p);
      Arrives(total, actions, k, j, p);
      var rest := CanLeave(total, actions + [a], k, unready - {j});
      more := [a] + rest;
      assert actions + [a] + rest == actions + more;
    }
  }

  // Receiving and testing concern no other node and send nothing.
  lemma {:induction false} OthersStay(total: nat, actions: seq<Action>, more: seq<Action>, k: nat)
    requires forall i :: 0 <= i < |more| ==> more[i].shard == k && (more[i].Receive? || more[i].TestAllReady?)
    ensures Run(total, actions + more).network == Run(total, actions).network
    ensures forall j :: 0 <= j < total && j != k ==>
              Run(total, actions + more).nodes[j] == Run(total, actions).nodes[j]
  {
    if more == [] {
      assert actions + more == actions;
    } else {
      var n := |more| - 1;
      OthersStay(total, actions, more[..n], k);
      assert (actions + more)[..|actions| + n] == actions + more[..n];
    }
  }

  // The node waits, knows the addresses of all others, and has reached those it
  // has marked as notified.
  ghost predicate Introduced(n: Node, network: seq<Packet>, ips: seq<string>, k: nat)
    requires k < |ips|
  {
    && n.phase == Waiting && n.ip == ips[k]
    && (forall j: nat :: j in n.table <==> j < |ips| && j != k)
    && (forall j :: j in n.table ==> n.table[j].ip == Some(ips[j]))
    && (forall j :: j in n.table && n.table[j].isNotified ==> Packet(k, ips[j]) in network)
  }

  function AllHosts(ips: seq<string>): seq<Host> {
    seq(|ips|, k requires 0 <= k < |ips| => Host(k, 0, false, ips[k]))
  }

  lemma {:induction false} AllListed(ips: seq<string>, n: nat, k: nat, j: nat)
    requires n <= |ips|
    ensures ListedIp(AllHosts(ips)[..n], k, j) == if j < n && j != k then Some(ips[j]) else None
  {
    if n > 0 {
      AllListed(ips, n - 1, k, j);
      assert AllHosts(ips)[..n][..n - 1] == AllHosts(ips)[..n - 1];
    }
  }

  lemma EnteringIntroduces(ips: seq<string>, network: seq<Packet>, k: nat)
    requires k < |ips|
    ensures Introduced(Entered(|ips|, k, ips[k], AllHosts(ips)), network, ips, k)
  {
    var hosts := AllHosts(ips);
    forall j: nat
      ensures Filled(|ips|, k, hosts).1 == Waiting
      ensures j in Filled(|ips|, k, hosts).0 <==> j < |ips| && j != k
      ensures j in Filled(|ips|, k, hosts).0 ==> Filled(|ips|, k, hosts).0[j] == Status(false, false, Some(ips[j]))
    {
      FilledTells(|ips|, k, hosts, j);
      AllListed(ips, |ips|, k, j);
      assert hosts[..|ips|] == hosts;
    }
  }

  // All nodes enter, each finding the others listed.
  lemma AllEnter(ips: seq<string>) returns (actions: seq<Action>)
    ensures forall k :: 0 <= k < |ips| ==>
              Introduced(Run(|ips|, actions).nodes[k], Run(|ips|, actions).network, ips, k)
  {
    actions := [];
    for n := 0 to |ips|
      invariant forall k :: 0 <= k < n ==>
                  Introduced(Run(|ips|, actions).nodes[k], Run(|ips|, actions).network, ips, k)
    {
      var a := Enter(n, ips[n], AllHosts(ips));
      assert (actions + [a])[..|actions|] == actions;
      EnteringIntroduces(ips, Run(|ips|, actions).network, n);
      actions := actions + [a];
    }
  }

  // One node reaches another, unless it has done so already.
  lemma Reach(ips: seq<string>, actions: seq<Action>, k: nat, j: nat)
    requires k < |ips| && j < |ips| && j != k
    requires forall i :: 0 <= i < |ips| ==>
               Introduced(Run(|ips|, actions).nodes[i], Run(|ips|, actions).network, ips, i)
    ensures var after := Run(|ips|, actions + [Notify(k, j, true)]);
            && (forall i :: 0 <= i < |ips| ==> Introduced(after.nodes[i], after.network, ips, i))
            && Packet(k, ips[j]) in after.network
            && Run(|ips|, actions).network <= after.network
  {
    var a := Notify(k, j, true);
    assert (actions + [a])[..|actions|] == actions;
    var before := Run(|ips|, actions);
    assert Introduced(before.nodes[k], before.network, ips, k);
    var network := Run(|ips|, actions + [a]).network;
    if CanNotify(before.nodes[k], j) {
      assert network[|before.network|] == Packet(k, ips[j]);
    }
    forall p | p in before.network
      ensures p in network
    {
    }
  }

  // The announcements of the first nodes to all others, and of one more to the
  // first others, are on their way.
  ghost predicate OnTheirWay(network: seq<Packet>, ips: seq<string>, k: nat, j: nat) {
    forall from: nat, to: nat :: from < |ips| && to < |ips| && from != to && (from < k || (from == k && to < j)) ==>
      Packet(from, ips[to]) in network
  }

  lemma AllNotify(ips: seq<string>) returns (actions: seq<Action>)
    ensures forall i :: 0 <= i < |ips| ==>
              Introduced(Run(|ips|, actions).nodes[i], Run(|ips|, actions).network, ips, i)
    ensures OnTheirWay(Run(|ips|, actions).network, ips, |ips|, 0)
  {
    actions := AllEnter(ips);
    for k := 0 to |ips|
      invariant forall i :: 0 <= i < |ips| ==>
                  Introduced(Run(|ips|, actions).nodes[i], Run(|ips|, actions).network, ips, i)
      invariant OnTheirWay(Run(|ips|, actions).network, ips, k, 0)
    {
      for j := 0 to |ips|
        invariant forall i :: 0 <= i < |ips| ==>
                    Introduced(Run(|ips|, actions).nodes[i], Run(|ips|, actions).network, ips, i)
        invariant OnTheirWay(Run(|ips|, actions).network, ips, k, j)
      {
        if j != k {
          Reach(ips, actions, k, j);
          actions := actions + [Notify(k, j, true)];
        }
      }
    }
  }

  // One node leaves, and nothing changes for the others.
  lemma OneLeaves(ips: seq<string>, actions: seq<Action>, k: nat) returns (more: seq<Action>)
    requires k < |ips| && Introduced(Run(|ips|, actions).nodes[k], Run(|ips|, actions).network, ips, k)
    requires OnTheirWay(Run(|ips|, actions).network, ips, |ips|, 0)
    ensures Run(|ips|, actions + more).nodes[k].phase == LeftAllReady
    ensures Run(|ips|, actions + more).network == Run(|ips|, actions).network
    ensures forall j :: 0 <= j < |ips| && j != k ==>
              Run(|ips|, actions + more).nodes[j] == Run(|ips|, actions).nodes[j]
  {
    var n := Run(|ips|, actions).nodes[k];
    EveryRunInforms(|ips|, actions, k);
    var unready := set j | j in n.table && !n.table[j].isReady;
    forall j: nat
      ensures j in unready <==>
        View(|ips|, actions, k, j).Some? && !View(|ips|, actions, k, j).value.isReady
    {
      assert (if j in n.table then Some(n.table[j]) else None) == View(|ips|, actions, k, j);
    }
    more := CanLeave(|ips|, actions, k, unready);
    OthersStay(|ips|, actions, more, k);
  }

  // A cluster of any size has a run in which all nodes leave.
  lemma AllCanLeave(ips: seq<string>) returns (actions: seq<Action>)
    ensures forall k :: 0 <= k < |ips| ==> Run(|ips|, actions).nodes[k].phase == LeftAllReady
  {
    actions := AllNotify(ips);
    for n := 0 to |ips|
      invariant OnTheirWay(Run(|ips|, actions).network, ips, |ips|, 0)
      invariant forall k :: 0 <= k < n ==> Run(|ips|, actions).nodes[k].phase == LeftAllReady
      invariant forall k :: n <= k < |ips| ==>
                  Introduced(Run(|ips|, actions).nodes[k], Run(|ips|, actions).network, ips, k)
    {
      var more := OneLeaves(ips, actions, n);
      actions := actions + more;
    }
  }

  // The node is not told that another is ready, and that one, which does not
  // wait any more, has sent it nothing.
  ghost predicate LeftBehind(total: nat, actions: seq<Action>, k: nat, j: nat)
    requires k < total && j < total
  {
    && View(total, actions, k, j).Some? && !View(total, actions, k, j).value.isReady
    && Run(total, actions).nodes[j].phase != Waiting
    && Packet(j, Address(actions, k)) !in Run(total, actions).network
    && Run(total, actions).nodes[k].phase != LeftAllReady
  }

  // Such a node never leaves, whatever happens, until one of the two enters
  // again.
  lemma {:induction false} StaysBehind(total: nat, actions: seq<Action>, later: seq<Action>, k: nat, j: nat)
    requires k < total && j < total && LeftBehind(total, actions, k, j)
    requires forall i :: 0 <= i < |later| && (later[i].shard == k || later[i].shard == j) ==> !later[i].Enter?
    ensures LeftBehind(total, actions + later, k, j)
  {
    if later == [] {
      assert actions + later == actions;
    } else {
      var n := |later| - 1;
      var before, a := actions + later[..n], later[n];
      StaysBehind(total, actions, later[..n], k, j);
      assert actions + later == before + [a] && (before + [a])[..|before|] == before;
      PhaseTells(total, before, a, k);
      PhaseTells(total, before, a, j);
      SendingTells(total, before, a);
    }
  }

  lemma OneMore(total: nat, actions: seq<Action>, a: Action)
    ensures Run(total, actions + [a]) == Step(Run(total, actions), a)
  {
    assert (actions + [a])[..|actions|] == actions;
  }

  // The first node enters and announces itself to the second, by which it was
  // not listed.
  function UnlistedSends(a: string, b: string): seq<Action> {
    [Enter(0, a, [Host(1, 0, false, b)])] + [Enter(1, b, [])] + [Notify(0, 1, true)]
  }

  function Unlisted(a: string, b: string): seq<Action> {
    UnlistedSends(a, b) + [Receive(1, 0)] + [TestAllReady(1)]
  }

  lemma UnlistedEnter(a: string, b: string)
    ensures Entered(2, 0, a, [Host(1, 0, false, b)]) == Node(a, Waiting, map[1 := UNKNOWN.(ip := Some(b))], {})
    ensures Entered(2, 1, b, []) == Node(b, Waiting, map[0 := UNKNOWN], {})
  {
    assert EmptyTable(2, 0) == map[1 := UNKNOWN];
    assert EmptyTable(2, 1) == map[0 := UNKNOWN];
    assert Filled(2, 0, [Host(1, 0, false, b)][..0]) == (EmptyTable(2, 0), Waiting);
  }

  lemma {:induction false} UnlistedSent(a: string, b: string)
    ensures Run(2, UnlistedSends(a, b)) == Cluster([Node(a, Waiting, map[1 := Status(false, true, Some(b))], {}),
                                                    Node(b, Waiting, map[0 := UNKNOWN], {})], [Packet(0, b)])
  {
    var enter := Enter(0, a, [Host(1, 0, false, b)]);
    var both := [enter] + [Enter(1, b, [])];
    UnlistedEnter(a, b);
    assert [] + [enter] == [enter];
    OneMore(2, [], enter);
    OneMore(2, [enter], Enter(1, b, []));
    OneMore(2, both, Notify(0, 1, true));
    var n := Entered(2, 0, a, enter.hosts);
    assert Run(2, both).nodes == [n, Entered(2, 1, b, [])];
    assert n.table[1 := Status(false, true, Some(b))] == map[1 := Status(false, true, Some(b))];
  }

  // The second takes the first for ready and notified: it leaves, and has never
  // answered.
  lemma {:induction false} UnlistedIsLeftBehind(a: string, b: string)
    ensures Run(2, Unlisted(a, b)).nodes[1].phase == LeftAllReady
    ensures LeftBehind(2, Unlisted(a, b), 0, 1)
  {
    var sends, all := UnlistedSends(a, b), Unlisted(a, b);
    UnlistedSent(a, b);
    OneMore(2, sends, Receive(1, 0));
    OneMore(2, sends + [Receive(1, 0)], TestAllReady(1));
    var n := Run(2, all).nodes[0];
    assert n == Run(2, sends).nodes[0];
    EveryRunInforms(2, all, 0);
    assert (if 1 in n.table then Some(n.table[1]) else None) == View(2, all, 0, 1);
  }

  // The node neither enters again nor hears of a host at its own address.
  predicate Unmoved(a: Action, k: nat, ip: string) {
    a.shard == k ==> !a.Enter? && (a.HostInit? ==> a.peerIp != ip)
  }

  lemma {:induction false} ListedElsewhere(hosts: seq<Host>, k: nat, j: nat, ip: string)
    requires forall h :: h in hosts && !(h.shard == k && h.replica == 0) ==> h.ip != ip
    ensures ListedIp(hosts, k, j) != Some(ip)
  {
    if hosts != [] {
      ListedElsewhere(hosts[..|hosts| - 1], k, j, ip);
    }
  }

  // The node waits for its own shard, and no announcement of that can come.
  ghost predicate WaitsForItself(total: nat, actions: seq<Action>, k: nat, ip: string)
    requires k < total
  {
    && Address(actions, k) == ip
    && View(total, actions, k, k).Some? && !View(total, actions, k, k).value.isReady
    && (forall j: nat :: View(total, actions, k, j).Some? ==> View(total, actions, k, j).value.ip != Some(ip))
    && Packet(k, ip) !in Run(total, actions).network
    && Run(total, actions).nodes[k].phase != LeftAllReady
  }

  lemma StillWaits(total: nat, actions: seq<Action>, a: Action, k: nat, ip: string)
    requires k < total && WaitsForItself(total, actions, k, ip) && Unmoved(a, k, ip)
    ensures WaitsForItself(total, actions + [a], k, ip)
  {
    assert (actions + [a])[..|actions|] == actions;
    PhaseTells(total, actions, a, k);
    SendingTells(total, actions, a);
    forall j: nat | View(total, actions + [a], k, j).Some?
      ensures View(total, actions + [a], k, j).value.ip != Some(ip)
    {
      assert View(total, actions, k, j).Some? ==> View(total, actions, k, j).value.ip != Some(ip);
    }
  }

  // A listed replica of the node's own shard that does not run yet gets an
  // entry in the table, which no announcement ever marks: the node never
  // leaves, whatever happens, until it enters again.
  lemma {:induction false} OwnReplicaBlocks(total: nat, k: nat, ip: string, hosts: seq<Host>, later: seq<Action>)
    requires k < total && ListedIp(hosts, k, k).Some?
    requires forall h :: h in hosts && !(h.shard == k && h.replica == 0) ==> h.ip != ip
    requires forall i :: 0 <= i < |later| ==> Unmoved(later[i], k, ip)
    ensures WaitsForItself(total, [Enter(k, ip, hosts)] + later, k, ip)
    decreases |later|
  {
    var enter := Enter(k, ip, hosts);
    if later == [] {
      assert [enter] + later == [] + [enter];
      assert ([] + [enter])[..0] == [];
      PhaseTells(total, [], enter, k);
      SendingTells(total, [], enter);
      forall j: nat
        ensures ListedIp(hosts, k, j) != Some(ip)
      {
        ListedElsewhere(hosts, k, j, ip);
      }
    } else {
      var n := |later| - 1;
      OwnReplicaBlocks(total, k, ip, hosts, later[..n]);
      StillWaits(total, [enter] + later[..n], later[n], k, ip);
      assert [enter] + later == [enter] + later[..n] + [later[n]];
    }
  }

  // --- The loops of the handler

  lemma {:induction false} BypassStays(total: nat, shard: nat, hosts: seq<Host>, i: nat)
    requires i <= |hosts| && Filled(total, shard, hosts[..i]).1 == Bypassed
    ensures Filled(total, shard, hosts) == Filled(total, shard, hosts[..i])
    decreases |hosts| - i
  {
    if i < |hosts| {
      assert hosts[..i + 1][..i] == hosts[..i];
      BypassStays(total, shard, hosts, i + 1);
    } else {
      assert hosts[..i] == hosts;
    }
  }

  // The first node of one shard.
  class BarrierNode {
    const shard: nat
    var ip: string
    var phase: Phase
    var statusTable: map<nat, Status>
    var handledIds: set<string>

    constructor (shard: nat)
      ensures this.shard == shard && Value() == Node("", Outside, map[], {})
    {
      this.shard := shard;
      ip, phase, statusTable, handledIds := "", Outside, map[], {};
    }

    ghost function Value(): Node
      reads this
    {
      Node(ip, phase, statusTable, handledIds)
    }

    method EnterBarrier(total: nat, ip: string, hosts: seq<Host>)
      modifies this
      ensures Value() == Entered(total, shard, ip, hosts)
    {
      this.ip, phase, handledIds := ip, Waiting, {};
      statusTable := map[];
      for i := 0 to total
        invariant this.ip == ip && phase == Waiting && handledIds == {} && statusTable == EmptyTable(i, shard)
      {
        if i != shard {
          statusTable := statusTable[i := Status(false, false, None)];
        }
      }
      for i := 0 to |hosts|
        invariant this.ip == ip && phase == Waiting && handledIds == {}
        invariant (statusTable, phase) == Filled(total, shard, hosts[..i])
      {
        assert hosts[..i + 1][..i] == hosts[..i];
        var h := hosts[i];
        if IsSelf(shard, h) {
          continue;
        }
        if h.running {
          phase := Bypassed;
          BypassStays(total, shard, hosts, i + 1);
          return;
        }
        if h.shard + 1 > total {
          continue;
        }
        statusTable := statusTable[h.shard := Status(false, false, Some(h.ip))];
      }
      assert hosts[..|hosts|] == hosts;
    }

    // One server of the loop that informs those not notified.
    method NotifyPeer(peer: nat, delivered: bool) returns (sent: Option<Packet>)
      modifies this`statusTable
      ensures if CanNotify(old(Value()), peer) && delivered
              then
                && Value() == Notified(old(Value()), peer)
                && sent == Some(Packet(shard, old(statusTable)[peer].ip.value))
              else Value() == old(Value()) && sent == None
    {
      sent := None;
      if phase == Waiting && peer in statusTable && !statusTable[peer].isNotified {
        var hostStatus := statusTable[peer];
        if hostStatus.ip.Some? && delivered {
          sent := Some(Packet(shard, hostStatus.ip.value));
          statusTable := statusTable[peer := hostStatus.(isNotified := true)];
        }
      }
    }

    method HostChanged(id: string, peer: nat, replica: nat, peerIp: Option<string>)
      modifies this`statusTable, this`handledIds
      ensures Value() == Changed(old(Value()), shard, id, peer, replica, peerIp)
    {
      if phase != Waiting || id in handledIds || peer == shard {
        return;
      }
      if replica == 0 {
        statusTable := statusTable[peer := Status(false, false, peerIp)];
      }
      handledIds := handledIds + {id};
    }

    method ReceiveFrom(peer: nat)
      modifies this`statusTable, this`phase
      ensures Value() == Announced(old(Value()), peer)
    {
      if phase == Waiting {
        if peer in statusTable {
          statusTable := statusTable[peer := Status(true, true, statusTable[peer].ip)];
        } else {
          phase := Failed;
        }
      }
    }

    method Test()
      modifies this`phase
      ensures Value() == Tested(old(Value()))
    {
      if phase == Waiting && forall j :: j in statusTable ==> statusTable[j].isReady {
        phase := LeftAllReady;
      }
    }
  }

  method Perform(node: BarrierNode, network: seq<Packet>, total: nat, a: Action) returns (network': seq<Packet>)
    requires a.shard == node.shard
    modifies node
    ensures node.Value() == NodeStep(old(node.Value()), network, total, a)
    ensures network' == NetworkStep(old(node.Value()), network, a)
  {
    network' := network;
    match a {
      case Enter(_, ip, hosts) => node.EnterBarrier(total, ip, hosts);
      case Notify(_, peer, delivered) =>
        var sent := node.NotifyPeer(peer, delivered);
        if sent.Some? {
          network' := network + [sent.value];
        }
      case HostInit(_, id, peer, replica, peerIp) => node.HostChanged(id, peer, replica, Some(peerIp));
      case HostDown(_, id, peer, replica) => node.HostChanged(id, peer, replica, None);
      case Receive(_, k) =>
        if k < |network| && network[k].destination == node.ip {
          node.ReceiveFrom(network[k].shard);
        }
      case TestAllReady(_) => node.Test();
    }
  }

  // The nodes of a cluster, fed with any actions, go through the states of Run:
  // once one of them has left because all were ready, all have entered.
  method Play(total: nat, actions: seq<Action>) returns (phases: seq<Phase>)
    ensures |phases| == total
    ensures forall k :: 0 <= k < total ==> phases[k] == Run(total, actions).nodes[k].phase
    ensures (exists k :: 0 <= k < total && phases[k] == LeftAllReady) ==>
      forall j :: 0 <= j < total ==> HasEntered(actions, j)
  {
    var nodes: seq<BarrierNode> := [];
    for i := 0 to total
      invariant |nodes| == i && fresh(nodes)
      invariant forall k :: 0 <= k < i ==> nodes[k].shard == k && nodes[k].Value() == Node("", Outside, map[], {})
      invariant forall k, l :: 0 <= k < l < i ==> nodes[k] != nodes[l]
    {
      var node := new BarrierNode(i);
      nodes := nodes + [node];
    }
    var network: seq<Packet> := [];
    for i := 0 to |actions|
      invariant |nodes| == total && fresh(nodes)
      invariant forall k :: 0 <= k < total ==> nodes[k].shard == k
      invariant forall k :: 0 <= k < total ==> nodes[k].Value() == Run(total, actions[..i]).nodes[k]
      invariant network == Run(total, actions[..i]).network
    {
      assert actions[..i + 1][..i] == actions[..i];
      if actions[i].shard < total {
        network := Perform(nodes[actions[i].shard], network, total, actions[i]);
      }
    }
    assert actions[..|actions|] == actions;
    phases := [];
    for i := 0 to total
      invariant |phases| == i && forall k :: 0 <= k < i ==> phases[k] == Run(total, actions).nodes[k].phase
    {
      phases := phases + [nodes[i].phase];
    }
    forall k, j | 0 <= k < total && phases[k] == LeftAllReady && 0 <= j < total
      ensures HasEntered(actions, j)
    {
      EveryRunSafe(total, actions, k, j);
    }
  }
}
