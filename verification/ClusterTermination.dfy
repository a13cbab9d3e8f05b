// The watcher that terminates a MongoDB cluster: it notifies every node,
// collects their replies, reports progress at each heartbeat and notifies the
// nodes that failed again (src/scalarizr/handlers/mongodb.py,
// ClusterTerminateWatcher).
module ClusterTermination {
  import opened Arithmetic
  import opened Sequences
  import opened Wrappers

  type NodeId = (nat, nat) // shard index, replica set index

  datatype State = Failed | Unreachable | Terminated | Pending

  datatype NodeStatus = NodeStatus(state: State, isMaster: Option<bool>, lastError: Option<string>)

  datatype Message =
    | OtherMessage
    | TerminateResult(node: NodeId, ok: bool, isMaster: bool, lastError: string)

  // One pass of the watcher's loop: what the clock and the message store say.
  datatype Round = Round(deadlinePassed: bool, messages: seq<Message>, heartbeatDue: bool)

  datatype Report = Report(nodes: map<NodeId, NodeStatus>, progress: int)

  datatype Result = Running | SentOk | DeadlineReached | UnknownNode | NoNodes

  ghost predicate AllTerminated(status: map<NodeId, NodeStatus>) {
    forall n :: n in status ==> status[n].state == Terminated
  }

  ghost function TerminatedNodes(status: map<NodeId, NodeStatus>): set<NodeId> {
    set n | n in status && status[n].state == Terminated
  }

  function RetriedNode(s: NodeStatus): NodeStatus {
    if s.state == Failed || s.state == Unreachable then NodeStatus(Pending, None, None) else s
  }

  ghost function FailedNodes(status: map<NodeId, NodeStatus>): set<NodeId> {
    set n | n in status && (status[n].state == Failed || status[n].state == Unreachable)
  }

  // Every node that failed has been asked again.
  function Retried(status: map<NodeId, NodeStatus>): map<NodeId, NodeStatus> {
    map n | n in status :: RetriedNode(status[n])
  }

  // The same, with the nodes in unseen still to come.
  ghost function RetriedExcept(status: map<NodeId, NodeStatus>, unseen: set<NodeId>): map<NodeId, NodeStatus> {
    map n | n in status :: if n in unseen then status[n] else RetriedNode(status[n])
  }

  lemma RetryOneMore(status: map<NodeId, NodeStatus>, unseen: set<NodeId>, n: NodeId)
    requires n in status && n in unseen
    ensures RetriedExcept(status, unseen)[n := RetriedNode(status[n])] == RetriedExcept(status, unseen - {n})
    ensures |TerminatedNodes(status) - (unseen - {n})|
         == |TerminatedNodes(status) - unseen| + if status[n].state == Terminated then 1 else 0
  {
    var done := TerminatedNodes(status);
    if n in done {
      assert done - (unseen - {n}) == done - unseen + {n};
    } else {
      assert done - (unseen - {n}) == done - unseen;
    }
  }

  // A reply replaces what was known about its sender.
  function Replied(status: map<NodeId, NodeStatus>, m: Message): map<NodeId, NodeStatus>
    requires m.TerminateResult? ==> m.node in status
  {
    if m == OtherMessage then status
    else if m.ok then status[m.node := NodeStatus(Terminated, Some(m.isMaster), None)]
    else status[m.node := status[m.node].(state := Failed, lastError := Some(m.lastError))]
  }

  // --- A whole watch

  datatype Watch = Watch(status: map<NodeId, NodeStatus>, reports: seq<Report>, result: Result)

  ghost function Notified(hosts: seq<NodeId>): map<NodeId, NodeStatus> {
    map n | n in hosts :: NodeStatus(Pending, None, None)
  }

  // A reply from a node that was never recorded is a KeyError.
  ghost function AfterMessages(status: map<NodeId, NodeStatus>, ms: seq<Message>): Option<map<NodeId, NodeStatus>> {
    if ms == [] then Some(status)
    else
      var m := ms[|ms| - 1];
      match AfterMessages(status, ms[..|ms| - 1])
      case None => None
      case Some(s) => if m.TerminateResult? && m.node !in s then None else Some(Replied(s, m))
  }

  ghost function Beat(w: Watch, hosts: seq<NodeId>): Watch {
    if hosts == [] then w.(result := NoNodes)
    else
      var terminated := |TerminatedNodes(w.status)|;
      Watch(Retried(w.status), w.reports + [Report(w.status, terminated * 100 / |hosts|)],
            if terminated == |hosts| then SentOk else Running)
  }

  ghost function Pass(w: Watch, hosts: seq<NodeId>, r: Round): Watch {
    if w.result != Running then w
    else if r.deadlinePassed then w.(result := DeadlineReached)
    else
      match AfterMessages(w.status, r.messages)
      case None => w.(result := UnknownNode)
      case Some(s) => if r.heartbeatDue then Beat(w.(status := s), hosts) else w.(status := s)
  }

  ghost function Watched(hosts: seq<NodeId>, rounds: seq<Round>): Watch {
    if rounds == [] then Watch(Notified(hosts), [], Running)
    else Pass(Watched(hosts, rounds[..|rounds| - 1]), hosts, rounds[|rounds| - 1])
  }

  ghost predicate GoodReport(r: Report, hosts: seq<NodeId>) {
    && r.nodes.Keys == Elements(hosts)
    && 0 <= r.progress <= 100 && (r.progress == 100 <==> AllTerminated(r.nodes) && Distinct(hosts))
  }

  // Every host is recorded; every report is good, and ok has been sent exactly
  // when some report shows all nodes terminated and no host is listed twice.
  ghost predicate GoodWatch(w: Watch, hosts: seq<NodeId>) {
    && w.status.Keys == Elements(hosts)
    && (forall r :: r in w.reports ==> GoodReport(r, hosts))
    && (w.result == SentOk <==> Distinct(hosts) && exists r :: r in w.reports && AllTerminated(r.nodes))
    && (w.result == SentOk ==> AllTerminated(w.status))
  }

  lemma {:induction false} MessagesKeepNodes(status: map<NodeId, NodeStatus>, ms: seq<Message>)
    ensures AfterMessages(status, ms).Some? ==> AfterMessages(status, ms).value.Keys == status.Keys
  {
    if ms != [] {
      MessagesKeepNodes(status, ms[..|ms| - 1]);
    }
  }

  lemma CountHosts(status: map<NodeId, NodeStatus>, hosts: seq<NodeId>)
    requires status.Keys == Elements(hosts)
    ensures |TerminatedNodes(status)| <= |hosts|
    ensures |TerminatedNodes(status)| == |hosts| <==> AllTerminated(status) && Distinct(hosts)
  {
    var done := TerminatedNodes(status);
    MembersAtMost(hosts);
    SubsetSize(done, status.Keys);
    if AllTerminated(status) {
      assert done == status.Keys;
    }
  }

  lemma ProgressBounds(done: nat, total: nat)
    requires 0 < total && done <= total
    ensures 0 <= done * 100 / total <= 100
    ensures done * 100 / total == 100 <==> done == total
  {
    QuotientAtLeast(done * 100, total, 100);
    QuotientAtLeast(done * 100, total, 101);
  }

  lemma BeatIsGood(w: Watch, hosts: seq<NodeId>)
    requires GoodWatch(w, hosts) && w.result == Running
    ensures GoodWatch(Beat(w, hosts), hosts)
  {
    CountHosts(w.status, hosts);
    if hosts != [] {
      var terminated := |TerminatedNodes(w.status)|;
      ProgressBounds(terminated, |hosts|);
      var report := Report(w.status, terminated * 100 / |hosts|);
      assert GoodReport(report, hosts);
      assert report in Beat(w, hosts).reports;
    }
  }

  // However the replies, failures and heartbeats fall.
  lemma {:induction false} EveryWatchGood(hosts: seq<NodeId>, rounds: seq<Round>)
    ensures GoodWatch(Watched(hosts, rounds), hosts)
  {
    if rounds != [] {
      var w, r := Watched(hosts, rounds[..|rounds| - 1]), rounds[|rounds| - 1];
      EveryWatchGood(hosts, rounds[..|rounds| - 1]);
      MessagesKeepNodes(w.status, r.messages);
      if w.result == Running && AfterMessages(w.status, r.messages).Some? {
        BeatIsGood(w.(status := AfterMessages(w.status, r.messages).value), hosts);
      }
    }
  }

  // With a host listed twice the watcher never succeeds, whatever the replies.
  lemma RepeatedHostNeverOk(hosts: seq<NodeId>, rounds: seq<Round>)
    requires !Distinct(hosts)
    ensures Watched(hosts, rounds).result != SentOk
  {
    EveryWatchGood(hosts, rounds);
  }

  lemma {:induction false} WatchEnds(hosts: seq<NodeId>, rounds: seq<Round>, i: nat)
    requires i <= |rounds| && Watched(hosts, rounds[..i]).result != Running
    ensures Watched(hosts, rounds) == Watched(hosts, rounds[..i])
    decreases |rounds| - i
  {
    if i < |rounds| {
      assert rounds[..i + 1][..i] == rounds[..i];
      WatchEnds(hosts, rounds, i + 1);
    } else {
      assert rounds[..i] == rounds;
    }
  }

  // --- What the states tell

  // The last reply of the node among the messages.
  function ReplyIn(ms: seq<Message>, n: NodeId): Option<Message> {
    if ms == [] then None
    else
      var m := ms[|ms| - 1];
      if m.TerminateResult? && m.node == n then Some(m) else ReplyIn(ms[..|ms| - 1], n)
  }

  // The last reply of the node in all rounds.
  function LastReply(rounds: seq<Round>, n: NodeId): Option<Message> {
    if rounds == [] then None
    else
      match ReplyIn(rounds[|rounds| - 1].messages, n)
      case Some(m) => Some(m)
      case None => LastReply(rounds[..|rounds| - 1], n)
  }

  // Has there been a heartbeat since?
  predicate BeatSince(rounds: seq<Round>, n: NodeId) {
    rounds != [] &&
    var r := rounds[|rounds| - 1];
    r.heartbeatDue || (ReplyIn(r.messages, n) == None && BeatSince(rounds[..|rounds| - 1], n))
  }

  predicate RepliedOk(rounds: seq<Round>, n: NodeId) {
    var reply := LastReply(rounds, n);
    reply.Some? && reply.value.TerminateResult? && reply.value.ok
  }

  // A node is terminated when its last reply was ok, and failed when that was
  // an error and no heartbeat came after it; otherwise it is being waited for.
  ghost predicate Told(s: NodeStatus, reply: Option<Message>, beaten: bool) {
    match reply
    case None => s == NodeStatus(Pending, None, None)
    case Some(m) =>
      && m.TerminateResult?
      && if m.ok then s == NodeStatus(Terminated, Some(m.isMaster), None)
         else if beaten then s == NodeStatus(Pending, None, None)
         else s.state == Failed && s.lastError == Some(m.lastError)
  }

  lemma {:induction false} MessagesTell(status: map<NodeId, NodeStatus>, ms: seq<Message>, n: NodeId,
                                        reply: Option<Message>, beaten: bool)
    requires AfterMessages(status, ms).Some? && n in status && Told(status[n], reply, beaten)
    ensures n in AfterMessages(status, ms).value
    ensures var latest := ReplyIn(ms, n);
            Told(AfterMessages(status, ms).value[n], if latest.Some? then latest else reply, latest == None && beaten)
  {
    if ms != [] {
      MessagesTell(status, ms[..|ms| - 1], n, reply, beaten);
    }
  }

  // All rounds so far have been gone through.
  ghost predicate GoneThrough(hosts: seq<NodeId>, rounds: seq<Round>) {
    && (rounds == [] || Watched(hosts, rounds[..|rounds| - 1]).result == Running)
    && (Watched(hosts, rounds).result == Running || Watched(hosts, rounds).result == SentOk)
  }

  lemma {:induction false} StatesTell(hosts: seq<NodeId>, rounds: seq<Round>, n: NodeId)
    requires n in hosts && GoneThrough(hosts, rounds)
    ensures var w := Watched(hosts, rounds);
            n in w.status && Told(w.status[n], LastReply(rounds, n), BeatSince(rounds, n))
    decreases |rounds|
  {
    if rounds != [] {
      var before, r := rounds[..|rounds| - 1], rounds[|rounds| - 1];
      var w := Watched(hosts, before);
      StatesTell(hosts, before, n);
      MessagesTell(w.status, r.messages, n, LastReply(before, n), BeatSince(before, n));
    }
  }

  // A further message to a round without a heartbeat changes only the state of
  // its sender; an error keeps what was known of the sender's rank.
  lemma MessageTells(hosts: seq<NodeId>, rounds: seq<Round>, ms: seq<Message>, m: Message, n: NodeId)
    requires var w := Watched(hosts, rounds + [Round(false, ms + [m], false)]); w.result == Running && n in w.status
    ensures var w := Watched(hosts, rounds + [Round(false, ms, false)]);
            var w' := Watched(hosts, rounds + [Round(false, ms + [m], false)]);
            && w.result == Running && n in w.status
            && if m.TerminateResult? && m.node == n then
                 if m.ok then w'.status[n] == NodeStatus(Terminated, Some(m.isMaster), None)
                 else w'.status[n] == NodeStatus(Failed, w.status[n].isMaster, Some(m.lastError))
               else w'.status[n] == w.status[n]
  {
    assert (ms + [m])[..|ms|] == ms;
    assert (rounds + [Round(false, ms, false)])[..|rounds|] == rounds;
    assert (rounds + [Round(false, ms + [m], false)])[..|rounds|] == rounds;
  }

  // The nodes whose last reply was ok.
  ghost function OkNodes(hosts: seq<NodeId>, rounds: seq<Round>): set<NodeId> {
    set n | n in hosts && RepliedOk(rounds, n)
  }

  // What is known when the heartbeat of the last round comes.
  lemma KnownAtBeat(hosts: seq<NodeId>, rounds: seq<Round>)
    requires rounds != [] && Watched(hosts, rounds[..|rounds| - 1]).result == Running
    requires var before, r := rounds[..|rounds| - 1], rounds[|rounds| - 1];
             AfterMessages(Watched(hosts, before).status, r.messages).Some?
    ensures var before, r := rounds[..|rounds| - 1], rounds[|rounds| - 1];
            var s := AfterMessages(Watched(hosts, before).status, r.messages).value;
            && s.Keys == Elements(hosts) && TerminatedNodes(s) == OkNodes(hosts, rounds)
            && forall n :: n in hosts ==>
                 n in s && Told(s[n], LastReply(rounds, n), ReplyIn(r.messages, n) == None && BeatSince(before, n))
  {
    var before, r := rounds[..|rounds| - 1], rounds[|rounds| - 1];
    var w := Watched(hosts, before);
    EveryWatchGood(hosts, before);
    MessagesKeepNodes(w.status, r.messages);
    forall n | n in hosts
      ensures var s := AfterMessages(w.status, r.messages).value;
              n in s && Told(s[n], LastReply(rounds, n), ReplyIn(r.messages, n) == None && BeatSince(before, n))
    {
      StatesTell(hosts, before, n);
      MessagesTell(w.status, r.messages, n, LastReply(before, n), BeatSince(before, n));
    }
  }

  // A heartbeat sends one report of what the last replies tell and of the
  // share of the nodes that replied ok; without one nothing is sent.
  lemma ReportTells(hosts: seq<NodeId>, rounds: seq<Round>)
    requires rounds != [] && GoneThrough(hosts, rounds)
    ensures var before, r := rounds[..|rounds| - 1], rounds[|rounds| - 1];
            var sent, sent' := Watched(hosts, before).reports, Watched(hosts, rounds).reports;
            if r.heartbeatDue then
              && hosts != [] && |sent'| == |sent| + 1 && sent'[..|sent|] == sent
              && var report := sent'[|sent|];
                 && report.progress == |OkNodes(hosts, rounds)| * 100 / |hosts| && report.nodes.Keys == Elements(hosts)
                 && forall n :: n in hosts ==>
                      && n in report.nodes
                      && Told(report.nodes[n], LastReply(rounds, n),
                              ReplyIn(r.messages, n) == None && BeatSince(before, n))
            else sent' == sent
  {
    KnownAtBeat(hosts, rounds);
  }

  // Ok is sent at a heartbeat exactly when there are hosts, each listed once,
  // and the last reply of every one was ok.
  lemma OkMeans(hosts: seq<NodeId>, rounds: seq<Round>)
    requires rounds != [] && GoneThrough(hosts, rounds)
    ensures Watched(hosts, rounds).result == SentOk <==>
              && rounds[|rounds| - 1].heartbeatDue && Distinct(hosts)
              && forall n :: n in hosts ==> RepliedOk(rounds, n)
  {
    var before, r := rounds[..|rounds| - 1], rounds[|rounds| - 1];
    KnownAtBeat(hosts, rounds);
    var s := AfterMessages(Watched(hosts, before).status, r.messages).value;
    CountHosts(s, hosts);
    forall n | n in hosts
      ensures RepliedOk(rounds, n) <==> s[n].state == Terminated
    {
    }
  }

  // The watch ends otherwise when the deadline passes, a reply comes from a
  // node that is not listed, or a heartbeat comes with no host.
  lemma {:induction false} UnknownMeans(status: map<NodeId, NodeStatus>, ms: seq<Message>)
    ensures AfterMessages(status, ms) == None <==> exists m :: m in ms && m.TerminateResult? && m.node !in status
  {
    if ms != [] {
      var n := |ms| - 1;
      UnknownMeans(status, ms[..n]);
      MessagesKeepNodes(status, ms[..n]);
      assert ms == ms[..n] + [ms[n]];
    }
  }

  lemma EndMeans(hosts: seq<NodeId>, rounds: seq<Round>)
    requires rounds != [] && Watched(hosts, rounds[..|rounds| - 1]).result == Running
    ensures var r, result := rounds[|rounds| - 1], Watched(hosts, rounds).result;
            var unknown := exists m :: m in r.messages && m.TerminateResult? && m.node !in hosts;
            if r.deadlinePassed then result == DeadlineReached
            else if unknown then result == UnknownNode
            else if r.heartbeatDue && hosts == [] then result == NoNodes
            else GoneThrough(hosts, rounds)
  {
    var before, r := rounds[..|rounds| - 1], rounds[|rounds| - 1];
    EveryWatchGood(hosts, before);
    UnknownMeans(Watched(hosts, before).status, r.messages);
  }

  lemma {:induction false} UnknownStays(status: map<NodeId, NodeStatus>, ms: seq<Message>, i: nat)
    requires i <= |ms| && AfterMessages(status, ms[..i]) == None
    ensures AfterMessages(status, ms) == None
    decreases |ms| - i
  {
    if i < |ms| {
      assert ms[..i + 1][..i] == ms[..i];
      UnknownStays(status, ms, i + 1);
    } else {
      assert ms[..i] == ms;
    }
  }

  // --- The watcher

  // Each of the nodes has been sent one more message.
  ghost predicate AskedAgain(before: seq<NodeId>, asked: seq<NodeId>, nodes: set<NodeId>) {
    before <= asked && Distinct(asked[|before|..]) && forall n :: n in asked[|before|..] <==> n in nodes
  }

  lemma AskOneMore(before: seq<NodeId>, asked: seq<NodeId>, status: map<NodeId, NodeStatus>, unseen: set<NodeId>,
                   n: NodeId)
    requires AskedAgain(before, asked, FailedNodes(status) - unseen) && n in unseen
    ensures var asked' := asked + if n in FailedNodes(status) then [n] else [];
            AskedAgain(before, asked', FailedNodes(status) - (unseen - {n}))
  {
    assert (asked + [n])[|before|..] == asked[|before|..] + [n];
    assert asked + [] == asked;
  }

  class ClusterTerminateWatcher {
    const hosts: seq<NodeId>
    var fullStatus: map<NodeId, NodeStatus>
    var asked: seq<NodeId> // the nodes that terminate messages were sent to

    constructor (hosts: seq<NodeId>)
      ensures this.hosts == hosts && fullStatus == map[] && asked == []
    {
      this.hosts := hosts;
      fullStatus, asked := map[], [];
    }

    // The message may not get through, which is first noted and then
    // overwritten: the node ends up pending either way.
    method SendTerminate(node: NodeId)
      modifies this
      ensures fullStatus == old(fullStatus)[node := NodeStatus(Pending, None, None)]
      ensures asked == old(asked) + [node]
    {
      asked := asked + [node];
      var delivered: bool := *;
      if !delivered {
        fullStatus := fullStatus[node := NodeStatus(Unreachable, None, None)];
      }
      fullStatus := fullStatus[node := NodeStatus(Pending, None, None)];
    }

    method NotifyAll()
      requires fullStatus == map[]
      modifies this
      ensures fullStatus == Notified(hosts) && asked == old(asked) + hosts
    {
      for i := 0 to |hosts|
        invariant fullStatus == Notified(hosts[..i]) && asked == old(asked) + hosts[..i]
      {
        SendTerminate(hosts[i]);
        assert hosts[..i + 1] == hosts[..i] + [hosts[i]];
      }
      assert hosts[..|hosts|] == hosts;
    }

    method HandleMessages(messages: seq<Message>) returns (ok: bool)
      modifies this`fullStatus
      ensures ok <==> AfterMessages(old(fullStatus), messages).Some?
      ensures ok ==> fullStatus == AfterMessages(old(fullStatus), messages).value
    {
      for i := 0 to |messages|
        invariant AfterMessages(old(fullStatus), messages[..i]) == Some(fullStatus)
      {
        assert messages[..i + 1][..i] == messages[..i];
        ok := HandleMessage(messages[i]);
        if !ok {
          UnknownStays(old(fullStatus), messages, i + 1);
          return;
        }
      }
      assert messages[..|messages|] == messages;
      return true;
    }

    method HandleMessage(m: Message) returns (ok: bool)
      modifies this`fullStatus
      ensures ok <==> (m.TerminateResult? ==> m.node in old(fullStatus))
      ensures fullStatus == if ok then Replied(old(fullStatus), m) else old(fullStatus)
    {
      if m == OtherMessage {
        return true;
      }
      if m.node !in fullStatus {
        return false;
      }
      var entry := fullStatus[m.node];
      if m.ok {
        entry := entry.(lastError := None);
        entry := entry.(state := Terminated);
        entry := entry.(isMaster := Some(m.isMaster));
      } else {
        entry := entry.(state := Failed);
        entry := entry.(lastError := Some(m.lastError));
      }
      fullStatus := fullStatus[m.node := entry];
      return true;
    }

    // Counts the terminated nodes and asks the failed ones again.
    method CountAndRetry() returns (terminated: nat)
      modifies this
      ensures fullStatus == Retried(old(fullStatus))
      ensures terminated == |TerminatedNodes(old(fullStatus))|
      ensures AskedAgain(old(asked), asked, FailedNodes(old(fullStatus)))
    {
      ghost var before := fullStatus;
      terminated := 0;
      var unseen := fullStatus.Keys;
      assert fullStatus == RetriedExcept(before, unseen);
      assert TerminatedNodes(before) - unseen == {};
      while unseen != {}
        invariant unseen <= before.Keys
        invariant fullStatus == RetriedExcept(before, unseen)
        invariant terminated == |TerminatedNodes(before) - unseen|
        invariant AskedAgain(old(asked), asked, FailedNodes(before) - unseen)
      {
        var n :| n in unseen;
        RetryOneMore(before, unseen, n);
        AskOneMore(old(asked), asked, before, unseen, n);
        unseen := unseen - {n};
        var isTerminated := Visit(n);
        if isTerminated {
          terminated := terminated + 1;
        }
      }
      assert TerminatedNodes(before) - {} == TerminatedNodes(before);
    }

    method Visit(n: NodeId) returns (isTerminated: bool)
      requires n in fullStatus
      modifies this
      ensures fullStatus == old(fullStatus)[n := RetriedNode(old(fullStatus)[n])]
      ensures isTerminated <==> old(fullStatus)[n].state == Terminated
      ensures asked == old(asked) + if n in FailedNodes(old(fullStatus)) then [n] else []
    {
      var state := fullStatus[n].state;
      isTerminated := false;
      if state == Unreachable || state == Failed {
        SendTerminate(n);
      } else if state == Terminated {
        isTerminated := true;
      }
    }

    // The progress message; None is the division by zero when there is no host.
    method Heartbeat() returns (report: Option<Report>, done: bool)
      modifies this
      ensures fullStatus == Retried(old(fullStatus))
      ensures AskedAgain(old(asked), asked, FailedNodes(old(fullStatus)))
      ensures var terminated := |TerminatedNodes(old(fullStatus))|;
        && (report == None <==> hosts == [])
        && (report.Some? ==> report.value == Report(old(fullStatus), terminated * 100 / |hosts|))
        && (done <==> hosts != [] && terminated == |hosts|)
    {
      var nodes := fullStatus;
      var terminated := CountAndRetry();
      if |hosts| == 0 {
        return None, false;
      }
      report := Some(Report(nodes, terminated * 100 / |hosts|));
      done := terminated == |hosts|;
    }

    // The whole watcher, fed with any rounds.
    method Run(rounds: seq<Round>) returns (reports: seq<Report>, result: Result)
      requires fullStatus == map[]
      modifies this
      ensures var w := Watched(hosts, rounds);
        reports == w.reports && result == w.result && (result == Running || result == SentOk ==> fullStatus == w.status)
    {
      reports := [];
      NotifyAll();
      for i := 0 to |rounds|
        invariant Watched(hosts, rounds[..i]) == Watch(fullStatus, reports, Running)
      {
        assert rounds[..i + 1][..i] == rounds[..i];
        reports, result := RunPass(rounds[i], reports);
        if result != Running {
          WatchEnds(hosts, rounds, i + 1);
          return;
        }
      }
      assert rounds[..|rounds|] == rounds;
      return reports, Running;
    }

    method RunPass(r: Round, sent: seq<Report>) returns (reports: seq<Report>, result: Result)
      modifies this
      ensures var w := Pass(Watch(old(fullStatus), sent, Running), hosts, r);
        reports == w.reports && result == w.result && (result == Running || result == SentOk ==> fullStatus == w.status)
    {
      reports := sent;
      if r.deadlinePassed {
        return reports, DeadlineReached;
      }
      var ok := HandleMessages(r.messages);
      if !ok {
        return reports, UnknownNode;
      }
      if r.heartbeatDue {
        var report, done := Heartbeat();
        if report == None {
          return reports, NoNodes;
        }
        reports := reports + [report.value];
        if done {
          return reports, SentOk;
        }
      }
      return reports, Running;
    }
  }
}
