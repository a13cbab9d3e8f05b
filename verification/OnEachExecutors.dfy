// OnEachExecutor: a leader that asks every Cassandra node in turn to run a
// command, arming a timer for each request and queueing failed nodes again
// (src/scalarizr/handlers/cassandra.py).
module OnEachExecutors {
  import opened Arithmetic
  import opened Sequences
  import opened Wrappers

  datatype Status = StatusOk | StatusError | OtherStatus

  datatype Failure = TimedOut(attempts: nat) | NotDelivered(attempts: nat) | Reported(text: string)

  // One entry of the results: what a response said, and the last error noted.
  datatype Row = Row(status: Option<Status>, lastError: Option<Failure>)

  datatype NodeData = NodeData(
    host: string,
    attempts: nat,
    lastAttemptTime: real,
    requestOk: Option<bool>,
    timerArmed: bool)

  datatype LastError = OutOfTime | NodeFailure(failure: Failure)

  datatype Message =
    | AlreadyRunning
    | CommandResult(status: Status, lastError: Option<LastError>, context: Context)

  // A request sent to a node, and whether the message got through.
  datatype Request = Request(node: nat, delivered: bool)

  function CeilDiv(a: nat, b: nat): nat
    requires b > 0
  {
    (a + b - 1) / b
  }

  lemma BelowCeilDiv(k: nat, r: nat, tf: nat)
    requires r > 0 && k * r < tf
    ensures k + 1 <= CeilDiv(tf, r)
  {
    assert (k + 1) * r == k * r + r;
    QuotientAtLeast(tf + r - 1, r, k + 1);
  }

  // Attempts the nodes may still make below a common bound.
  function Remaining(nodes: seq<NodeData>, bound: nat): int {
    if nodes == [] then 0 else bound - nodes[0].attempts + Remaining(nodes[1..], bound)
  }

  lemma {:induction false} RemainingNonNegative(nodes: seq<NodeData>, bound: nat)
    requires forall i :: 0 <= i < |nodes| ==> nodes[i].attempts <= bound
    ensures Remaining(nodes, bound) >= 0
  {
    if nodes != [] {
      RemainingNonNegative(nodes[1..], bound);
    }
  }

  lemma {:induction false} RemainingUpdate(nodes: seq<NodeData>, bound: nat, i: nat, node: NodeData)
    requires i < |nodes|
    ensures Remaining(nodes[i := node], bound) == Remaining(nodes, bound) + nodes[i].attempts - node.attempts
  {
    if i > 0 {
      RemainingUpdate(nodes[1..], bound, i - 1, node);
      assert nodes[i := node][1..] == nodes[1..][i - 1 := node];
    } else {
      assert nodes[i := node][1..] == nodes[1..];
    }
  }

  // A running command.
  datatype Context = Context(
    nodes: seq<NodeData>,
    queue: seq<nat>,
    current: Option<nat>,
    timeframe: nat,
    startTime: real,
    resendInterval: nat,
    results: map<nat, Row>)

  function MaxAttempts(c: Context): nat
    requires c.resendInterval > 0
  {
    CeilDiv(c.timeframe, c.resendInterval) + 1
  }

  // Two attempts of one node are at least a resend interval apart.
  ghost predicate Paced(c: Context, node: NodeData, now: real)
    requires c.resendInterval > 0
  {
    && node.attempts <= MaxAttempts(c)
    && (node.attempts > 0 ==>
          c.startTime + ((node.attempts - 1) * c.resendInterval) as real <= node.lastAttemptTime <= now)
  }

  ghost predicate Sound(c: Context, now: real) {
    && c.resendInterval > 0 && c.startTime <= now
    && |c.queue| <= |c.nodes| && (forall q :: q in c.queue ==> q < |c.nodes|)
    && (forall i :: 0 <= i < |c.nodes| ==> Paced(c, c.nodes[i], now))
  }

  predicate Answered(c: Context, i: nat)
    requires i < |c.nodes|
  {
    c.nodes[i].requestOk == Some(true)
  }

  // Node i has answered ok, and its row says so.
  ghost predicate Done(c: Context, i: nat)
    requires i < |c.nodes|
  {
    Answered(c, i) && i in c.results && c.results[i].status == Some(StatusOk)
  }

  // With no request outstanding: every node is queued, exactly once, or done.
  ghost predicate Ready(c: Context) {
    && Distinct(c.queue)
    && forall i :: 0 <= i < |c.nodes| ==> if i in c.queue then !Answered(c, i) else Done(c, i)
  }

  // The queue, the outstanding node and the nodes done partition all nodes.
  ghost predicate Partition(c: Context) {
    && c.current.Some? && c.current.value < |c.nodes| && c.current.value !in c.queue
    && c.nodes[c.current.value].timerArmed
    && Distinct(c.queue)
    && forall i :: 0 <= i < |c.nodes| ==>
         if i in c.queue || c.current == Some(i) then !Answered(c, i) else Done(c, i)
  }

  // What requests leave alone: the answers, and every node that was not queued.
  ghost predicate OthersUntouched(c: Context, c': Context) {
    && |c'.nodes| == |c.nodes| && c'.timeframe == c.timeframe && c'.startTime == c.startTime
    && c'.resendInterval == c.resendInterval
    && (forall i :: 0 <= i < |c.nodes| ==>
          c'.nodes[i].host == c.nodes[i].host && c'.nodes[i].requestOk == c.nodes[i].requestOk)
    && (forall i :: 0 <= i < |c.nodes| && i !in c.queue ==>
          && i !in c'.queue
          && (i in c'.results <==> i in c.results)
          && (i in c.results ==> c'.results[i] == c.results[i]))
  }

  // The reported status is ok exactly when every node answered ok.
  ghost predicate Truthful(m: Message) {
    && m.CommandResult?
    && (m.status == StatusOk <==> forall i :: 0 <= i < |m.context.nodes| ==> Answered(m.context, i))
  }

  // The error given, or else that of some row that has one.
  ghost predicate ErrorOf(c: Context, e: Option<LastError>, r: Option<LastError>) {
    match r
    case None => e == None && forall i :: i in c.results ==> c.results[i].lastError == None
    case Some(NodeFailure(f)) =>
      e == r || (e == None && exists i :: i in c.results && c.results[i].lastError == Some(f))
    case Some(OutOfTime) => e == r
  }

  // Every node is done.
  ghost predicate Complete(m: Message) {
    && m.CommandResult? && m.status == StatusOk
    && forall i :: 0 <= i < |m.context.nodes| ==> Done(m.context, i)
  }

  // The queue after n of its nodes have gone from its front to its end.
  function Turned(queue: seq<nat>, n: nat): seq<nat>
    decreases n
  {
    if n == 0 || queue == [] then queue else Turned(queue[1..] + [queue[0]], n - 1)
  }

  // The requests go to the nodes in the order of the queue, and round again,
  // as long as none gets through.
  ghost predicate InTurn(queue: seq<nat>, sent: seq<Request>) {
    && (forall k :: 0 <= k < |sent| && k < |queue| ==> sent[k].node == queue[k])
    && (queue == [] ==> sent == [])
    && (forall k :: 0 <= k < |sent| - |queue| ==> sent[k + |queue|].node == sent[k].node)
    && (forall k :: 0 <= k < |sent| - 1 ==> !sent[k].delivered)
  }

  // The node asked last is outstanding, and those asked before it have joined
  // the end of the queue; or no request got through.
  ghost predicate Served(c: Context, running: bool, queue: seq<nat>, sent: seq<Request>) {
    && InTurn(queue, sent)
    && if running then
         && sent != [] && c.current.Some? && sent[|sent| - 1] == Request(c.current.value, true)
         && [c.current.value] + c.queue == Turned(queue, |sent| - 1)
       else forall k :: 0 <= k < |sent| ==> !sent[k].delivered
  }

  lemma ServedAtOnce(c: Context, queue: seq<nat>)
    requires queue != [] && c.current == Some(queue[0]) && c.queue == queue[1..]
    ensures Served(c, true, queue, [Request(queue[0], true)])
  {
  }

  lemma ServedAfterFailure(c: Context, running: bool, queue: seq<nat>, sent: seq<Request>)
    requires queue != [] && Served(c, running, queue[1..] + [queue[0]], sent)
    ensures Served(c, running, queue, [Request(queue[0], false)] + sent)
  {
    var all, turned := [Request(queue[0], false)] + sent, queue[1..] + [queue[0]];
    forall k | 0 <= k < |all|
      ensures k < |queue| ==> all[k].node == queue[k]
      ensures k < |all| - |queue| ==> all[k + |queue|].node == all[k].node
      ensures k < |all| - 1 ==> !all[k].delivered
    {
      if k > 0 {
        assert all[k] == sent[k - 1];
        assert k < |queue| ==> turned[k - 1] == queue[k];
        assert k < |all| - |queue| ==> sent[k - 1 + |queue|].node == sent[k - 1].node;
      } else if |queue| < |all| {
        assert sent[|queue| - 1].node == turned[|queue| - 1];
      }
    }
  }

  // The first request goes to the head of the queue; if it gets through, the
  // rest of the queue waits behind it.
  lemma HeadIsAsked(c: Context, running: bool, queue: seq<nat>, sent: seq<Request>)
    requires Served(c, running, queue, sent) && sent != []
    ensures queue != [] && sent[0].node == queue[0]
    ensures sent[0].delivered ==> running && |sent| == 1 && c.current == Some(queue[0]) && c.queue == queue[1..]
  {
    if sent[0].delivered {
      assert Turned(queue, 0) == queue;
    }
  }

  // A node at the end of the queue is asked only after all others.
  lemma OthersComeFirst(c: Context, running: bool, queue: seq<nat>, i: nat, sent: seq<Request>, k: nat)
    requires Served(c, running, queue + [i], sent) && i !in queue && k < |sent| && sent[k].node == i
    ensures k >= |queue| && forall j :: 0 <= j < |queue| ==> sent[j] == Request(queue[j], false)
  {
    assert forall j :: 0 <= j < |queue| ==> (queue + [i])[j] == queue[j];
    forall j | 0 <= j < |queue|
      ensures sent[j] == Request(queue[j], false)
    {
    }
  }

  lemma {:induction false} TurnedMembers(queue: seq<nat>, n: nat, i: nat)
    ensures i in Turned(queue, n) <==> i in queue
    decreases n
  {
    if n > 0 && queue != [] {
      TurnedMembers(queue[1..] + [queue[0]], n - 1, i);
      assert queue == [queue[0]] + queue[1..];
    }
  }

  lemma NextWasQueued(c: Context, queue: seq<nat>, sent: seq<Request>)
    requires Served(c, true, queue, sent)
    ensures c.current.value in queue
  {
    var s := [c.current.value] + c.queue;
    assert s[0] in s;
    TurnedMembers(queue, |sent| - 1, s[0]);
  }

  // A request from c ends with a node outstanding in c', or with one message.
  ghost predicate Outcome(ready: bool, running: bool, c': Context, sent: seq<Message>) {
    if running then sent == [] && c'.current.Some? && (ready ==> Partition(c'))
    else
      && |sent| == 1 && Truthful(sent[0]) && sent[0].context == c'
      && (ready && sent[0].lastError != Some(OutOfTime) ==> Complete(sent[0]))
  }

  // Is c about the same command as c'?
  ghost predicate SameCommand(c: Context, c': Context) {
    && |c'.nodes| == |c.nodes| && (forall i :: 0 <= i < |c.nodes| ==> c'.nodes[i].host == c.nodes[i].host)
    && c'.timeframe == c.timeframe && c'.resendInterval == c.resendInterval
  }

  // Is c a run of the command on the hosts, within 120% of the time all
  // requests take?
  ghost predicate CommandFor(c: Context, hosts: seq<string>, requestTimeout: nat, resendInterval: nat) {
    && |c.nodes| == |hosts| && (forall i :: 0 <= i < |hosts| ==> c.nodes[i].host == hosts[i])
    && c.timeframe == |hosts| * requestTimeout * 12 / 10 && c.resendInterval == resendInterval
  }

  ghost predicate Known(c: Context, host: string) {
    exists i :: 0 <= i < |c.nodes| && c.nodes[i].host == host
  }

  // Node i is the first with the address, and so the one that answers from it.
  ghost predicate First(c: Context, host: string, i: nat) {
    i < |c.nodes| && c.nodes[i].host == host && forall j :: 0 <= j < i ==> c.nodes[j].host != host
  }

  // The node asked last is the one that answers, with a status the leader
  // understands.
  ghost predicate Expected(c: Context, host: string, status: Status) {
    c.current.Some? && First(c, host, c.current.value) && status != OtherStatus
  }

  // A node is below the bound while the time frame is still open.
  lemma AttemptsBound(c: Context, node: NodeData, now: real)
    requires c.resendInterval > 0 && Paced(c, node, now) && c.startTime <= now
    requires now - c.startTime < c.timeframe as real
    ensures node.attempts + 1 <= MaxAttempts(c)
  {
    if node.attempts > 0 {
      BelowCeilDiv(node.attempts - 1, c.resendInterval, c.timeframe);
    } else {
      BelowCeilDiv(0, c.resendInterval, c.timeframe);
    }
  }

  // An attempt on node i changes nothing else.
  ghost predicate Attempted(c: Context, c': Context, i: nat)
    requires i < |c.nodes|
  {
    && |c'.nodes| == |c.nodes| && c' == c.(nodes := c'.nodes, current := Some(i))
    && (forall j :: 0 <= j < |c.nodes| && j != i ==> c'.nodes[j] == c.nodes[j])
    && c'.nodes[i].timerArmed && c'.nodes[i].attempts == c.nodes[i].attempts + 1
    && c'.nodes[i].host == c.nodes[i].host && c'.nodes[i].requestOk == c.nodes[i].requestOk
    && c.resendInterval > 0
    && 0 <= Remaining(c'.nodes, MaxAttempts(c)) < Remaining(c.nodes, MaxAttempts(c))
  }

  // Node i is asked at time t.
  function Stamped(c: Context, i: nat, t: real): Context
    requires i < |c.nodes|
  {
    var node := c.nodes[i];
    c.(nodes := c.nodes[i := node.(lastAttemptTime := t, attempts := node.attempts + 1, timerArmed := true)],
       current := Some(i))
  }

  lemma OneIntervalMore(n: nat, r: nat)
    ensures ((n + 1) * r) as real == (n * r) as real + r as real
  {
    assert (n + 1) * r == n * r + r;
  }

  lemma StampedPaced(c: Context, i: nat, before: real, now: real)
    requires i < |c.nodes| && c.resendInterval > 0 && c.startTime <= before <= now
    requires Paced(c, c.nodes[i], before) && c.nodes[i].attempts + 1 <= MaxAttempts(c)
    requires now - c.nodes[i].lastAttemptTime >= c.resendInterval as real
    ensures Paced(c, Stamped(c, i, now).nodes[i], now)
  {
    var n := c.nodes[i].attempts;
    if n > 0 {
      OneIntervalMore(n - 1, c.resendInterval);
    }
  }

  lemma AttemptMade(c: Context, i: nat, before: real, now: real)
    requires Sound(c, before) && i < |c.nodes| && before - c.startTime < c.timeframe as real
    requires before <= now && now - c.nodes[i].lastAttemptTime >= c.resendInterval as real
    ensures Sound(Stamped(c, i, now), now) && Attempted(c, Stamped(c, i, now), i)
  {
    var c' := Stamped(c, i, now);
    AttemptsBound(c, c.nodes[i], before);
    StampedPaced(c, i, before, now);
    forall j | 0 <= j < |c.nodes|
      ensures Paced(c', c'.nodes[j], now)
    {
      assert Paced(c, c.nodes[j], before);
    }
    RemainingUpdate(c.nodes, MaxAttempts(c), i, c'.nodes[i]);
    RemainingNonNegative(c'.nodes, MaxAttempts(c));
  }

  lemma AttemptOutstanding(c: Context, c': Context, i: nat)
    requires c.queue != [] && c.queue[0] == i < |c.nodes|
    requires Attempted(c.(queue := c.queue[1..]), c', i)
    ensures OthersUntouched(c, c')
    ensures Ready(c) ==> Partition(c')
  {
    forall j | 0 <= j < |c.nodes| && Ready(c)
      ensures if j in c'.queue || j == i then !Answered(c', j) else Done(c', j)
    {
      assert j in c.queue <==> j in c'.queue || j == i;
    }
  }

  function Noted(c: Context, i: nat, failure: Failure): Context {
    var row := if i in c.results then c.results[i] else Row(None, None);
    c.(results := c.results[i := row.(lastError := Some(failure))])
  }

  // Node i is back at the end of the queue, its timer off and its failure
  // noted.
  function Returned(c: Context, i: nat, failure: Failure): Context
    requires i < |c.nodes|
  {
    Noted(c, i, failure).(
      nodes := c.nodes[i := c.nodes[i].(timerArmed := false)], current := None, queue := c.queue + [i])
  }

  // How often the node was asked.
  function Times(sent: seq<Request>, i: nat): nat {
    if sent == [] then 0 else Times(sent[1..], i) + if sent[0].node == i then 1 else 0
  }

  // How many requests to the node did not get through.
  function Failures(sent: seq<Request>, i: nat): nat {
    if sent == [] then 0 else Failures(sent[1..], i) + if sent[0] == Request(i, false) then 1 else 0
  }

  lemma CountedFirst(r: Request, sent: seq<Request>, i: nat)
    ensures Times([r] + sent, i) == Times(sent, i) + if r.node == i then 1 else 0
    ensures Failures([r] + sent, i) == Failures(sent, i) + if r == Request(i, false) then 1 else 0
  {
    assert ([r] + sent)[1..] == sent;
  }

  // The node has been asked that often, and its row tells of the last request
  // that did not get through.
  ghost predicate NodeTried(c: Context, c': Context, sent: seq<Request>, i: nat)
    requires i < |c.nodes| == |c'.nodes|
  {
    && c'.nodes[i].attempts == c.nodes[i].attempts + Times(sent, i)
    && if Failures(sent, i) == 0 then
         (i in c'.results <==> i in c.results) && (i in c.results ==> c'.results[i] == c.results[i])
       else
         && i in c'.results
         && c'.results[i].status == (if i in c.results then c.results[i].status else None)
         && c'.results[i].lastError == Some(NotDelivered(c.nodes[i].attempts + Failures(sent, i)))
  }

  ghost predicate Tried(c: Context, c': Context, sent: seq<Request>) {
    |c'.nodes| == |c.nodes| && forall i :: 0 <= i < |c.nodes| ==> NodeTried(c, c', sent, i)
  }

  lemma TriedOnce(c: Context, c': Context, i: nat)
    requires i < |c.nodes| && c.queue != [] && Attempted(c.(queue := c.queue[1..]), c', i)
    ensures Tried(c, c', [Request(i, true)])
  {
    assert [Request(i, true)] + [] == [Request(i, true)];
    forall j | 0 <= j < |c.nodes|
      ensures NodeTried(c, c', [Request(i, true)], j)
    {
      CountedFirst(Request(i, true), [], j);
    }
  }

  lemma TriedAgain(c: Context, c': Context, c'': Context, i: nat, sent: seq<Request>)
    requires i < |c.nodes| && c.queue != [] && Attempted(c.(queue := c.queue[1..]), c', i)
    requires Tried(Returned(c', i, NotDelivered(c'.nodes[i].attempts)), c'', sent)
    ensures Tried(c, c'', [Request(i, false)] + sent)
  {
    var returned := Returned(c', i, NotDelivered(c'.nodes[i].attempts));
    forall j | 0 <= j < |c.nodes|
      ensures NodeTried(c, c'', [Request(i, false)] + sent, j)
    {
      CountedFirst(Request(i, false), sent, j);
      assert NodeTried(returned, c'', sent, j);
    }
  }

  // What the next requests make of c: the queue is served in turn, the rows
  // tell of failures, the other nodes are left alone, and a node is outstanding
  // or one message is sent.
  ghost predicate Asked(c: Context, c': Context, running: bool, sent: seq<Request>, messages: seq<Message>) {
    exists n: nat :: AskedAfter(c, c', running, sent, messages, n)
  }

  // The same, n requests having failed.
  ghost predicate AskedAfter(c: Context, c': Context, running: bool, sent: seq<Request>, messages: seq<Message>, n: nat)
  {
    && |sent| == n + (if running then 1 else 0)
    && OthersUntouched(c, c') && Served(c', running, c.queue, sent) && Tried(c, c', sent)
    && Outcome(Ready(c), running, c', messages)
  }

  lemma AskedMeans(c: Context, c': Context, running: bool, sent: seq<Request>, messages: seq<Message>)
    requires Asked(c, c', running, sent, messages)
    ensures OthersUntouched(c, c') && Served(c', running, c.queue, sent) && Tried(c, c', sent)
    ensures Outcome(Ready(c), running, c', messages)
  {
    var n: nat :| AskedAfter(c, c', running, sent, messages, n);
  }

  lemma NobodyAsked(c: Context, messages: seq<Message>)
    requires Outcome(Ready(c), false, c, messages)
    ensures Asked(c, c, false, [], messages)
  {
    assert AskedAfter(c, c, false, [], messages, 0);
  }

  lemma AskedOnce(c: Context, c': Context, i: nat)
    requires c.queue != [] && c.queue[0] == i < |c.nodes|
    requires Attempted(c.(queue := c.queue[1..]), c', i)
    ensures Asked(c, c', true, [Request(i, true)], [])
  {
    AttemptOutstanding(c, c', i);
    ServedAtOnce(c', c.queue);
    TriedOnce(c, c', i);
    assert AskedAfter(c, c', true, [Request(i, true)], [], 0);
  }

  // The failed node joins the end of the queue, which has room for it.
  lemma FailureRequeued(c: Context, c': Context, i: nat)
    requires i < |c.nodes| && |c'.nodes| == |c.nodes| && c'.queue == c.queue + [i]
    requires forall j :: 0 <= j < |c.nodes| ==> c'.nodes[j].requestOk == c.nodes[j].requestOk
    requires forall j :: j in c.results && j != i ==> j in c'.results && c'.results[j] == c.results[j]
    ensures Partition(c) && c.current == Some(i) ==> Ready(c')
  {
    forall j | 0 <= j < |c.nodes| && Partition(c) && c.current == Some(i)
      ensures if j in c'.queue then !Answered(c', j) else Done(c', j)
    {
      assert j in c'.queue <==> j in c.queue || j == i;
    }
  }

  lemma AskedAgain(c: Context, c': Context, c'': Context, i: nat, running: bool, sent: seq<Request>,
                   messages: seq<Message>)
    requires c.queue != [] && c.queue[0] == i < |c.nodes|
    requires Attempted(c.(queue := c.queue[1..]), c', i)
    requires Asked(Returned(c', i, NotDelivered(c'.nodes[i].attempts)), c'', running, sent, messages)
    ensures Asked(c, c'', running, [Request(i, false)] + sent, messages)
  {
    var n: nat :| AskedAfter(Returned(c', i, NotDelivered(c'.nodes[i].attempts)), c'', running, sent, messages, n);
    AttemptOutstanding(c, c', i);
    FailureRequeued(c', Returned(c', i, NotDelivered(c'.nodes[i].attempts)), i);
    ServedAfterFailure(c'', running, c.queue, sent);
    TriedAgain(c, c', c'', i, sent);
    assert i in c.queue;
    assert AskedAfter(c, c'', running, [Request(i, false)] + sent, messages, n + 1);
  }

  function NewNode(host: string): NodeData {
    NodeData(host, 0, 0.0, None, false)
  }

  function Indices(n: nat): (s: seq<nat>)
    ensures |s| == n && forall k :: 0 <= k < n ==> s[k] == k
  {
    if n == 0 then [] else Indices(n - 1) + [n - 1]
  }

  // The nodes have been asked as often as sent says since the command started,
  // and the only rows are those of requests that did not get through.
  ghost predicate Opened(c: Context, sent: seq<Request>) {
    forall i :: 0 <= i < |c.nodes| ==>
      && c.nodes[i].attempts == Times(sent, i)
      && (i in c.results <==> Failures(sent, i) > 0)
      && (i in c.results ==> c.results[i] == Row(None, Some(NotDelivered(Failures(sent, i)))))
  }

  lemma FreshIsOpened(c: Context, c': Context, sent: seq<Request>)
    requires Tried(c, c', sent) && c.results == map[] && forall i :: 0 <= i < |c.nodes| ==> c.nodes[i].attempts == 0
    ensures Opened(c', sent)
  {
    forall i | 0 <= i < |c.nodes|
      ensures c'.nodes[i].attempts == Times(sent, i) && (i in c'.results <==> Failures(sent, i) > 0)
      ensures i in c'.results ==> c'.results[i] == Row(None, Some(NotDelivered(Failures(sent, i))))
    {
      assert NodeTried(c, c', sent, i);
    }
  }

  lemma {:induction false} FailuresAtMost(sent: seq<Request>, i: nat)
    ensures Failures(sent, i) <= Times(sent, i)
  {
    if sent != [] {
      FailuresAtMost(sent[1..], i);
    }
  }

  // The row of a node that is not asked again tells of its timeout.
  lemma TimeoutTold(c: Context, i: nat, failure: Failure, c': Context, sent: seq<Request>)
    requires i < |c.nodes| && Tried(Returned(c, i, failure), c', sent) && Times(sent, i) == 0
    ensures i in c'.results && c'.results[i].lastError == Some(failure)
  {
    FailuresAtMost(sent, i);
    assert NodeTried(Returned(c, i, failure), c', sent, i);
  }

  lemma FreshIsReady(c: Context, hosts: seq<string>)
    requires |c.nodes| == |hosts| && (forall i :: 0 <= i < |hosts| ==> c.nodes[i] == NewNode(hosts[i]))
    requires c.queue == Indices(|hosts|)
    ensures Ready(c)
  {
    forall i | 0 <= i < |c.nodes|
      ensures i in c.queue && !Answered(c, i)
    {
      assert c.queue[i] == i;
    }
  }

  // The row a response with a status and perhaps an error text is.
  function RowOf(status: Status, text: Option<string>): Row {
    Row(Some(status), if text == None then None else Some(Reported(text.value)))
  }

  // What filing a response makes of a context, with the timer stopped or not.
  function Filed(c: Context, i: nat, stop: bool, row: Row, status: Status): Context
    requires i < |c.nodes|
  {
    var node := c.nodes[i].(requestOk := Some(status == StatusOk), timerArmed := c.nodes[i].timerArmed && !stop);
    c.(results := c.results[i := row],
       nodes := c.nodes[i := node],
       queue := if status == StatusError then c.queue + [i] else c.queue)
  }

  lemma ResponseRecorded(c: Context, c': Context, status: Status)
    requires Partition(c) && status != OtherStatus
    requires var i := c.current.value;
      && |c'.nodes| == |c.nodes|
      && (forall j :: 0 <= j < |c.nodes| && j != i ==> c'.nodes[j] == c.nodes[j])
      && c'.nodes[i].requestOk == Some(status == StatusOk)
      && c'.queue == (if status == StatusError then c.queue + [i] else c.queue)
      && (forall j :: j in c.results && j != i ==> j in c'.results && c'.results[j] == c.results[j])
      && i in c'.results && c'.results[i].status == Some(status)
    ensures Ready(c')
  {
    var i := c.current.value;
    forall j | 0 <= j < |c.nodes|
      ensures if j in c'.queue then !Answered(c', j) else Done(c', j)
    {
      assert j in c'.queue <==> j in c.queue || (j == i && status == StatusError);
    }
  }

  // Before the next request every node is queued or done, or the node asked
  // last is lost.
  lemma ResponseFiled(c: Context, i: nat, stop: bool, row: Row, status: Status, now: real)
    requires Sound(c, now) && Partition(c) && i < |c.nodes| && row.status == Some(status)
    ensures Sound(Filed(c, i, stop, row, status), now)
    ensures var c' := Filed(c, i, stop, row, status);
      if c.current == Some(i) && status != OtherStatus then Ready(c')
      else c.current.value !in c'.queue && !Answered(c', c.current.value)
  {
    var c' := Filed(c, i, stop, row, status);
    FewerThan(c.queue, |c.nodes|, c.current.value);
    forall j | 0 <= j < |c.nodes|
      ensures Paced(c', c'.nodes[j], now)
    {
      assert Paced(c, c.nodes[j], now);
    }
    if c.current == Some(i) && status != OtherStatus {
      ResponseRecorded(c, c', status);
    }
  }

  // The node is neither queued nor being asked, and has not answered ok.
  ghost predicate Lost(c: Context, i: nat) {
    i < |c.nodes| && i !in c.queue && !Answered(c, i) && c.current != Some(i)
  }

  // A node neither queued nor answered is lost to the requests that follow.
  lemma Stranded(c: Context, c': Context, i: nat, sent: seq<Request>)
    requires i < |c.nodes| && i !in c.queue && !Answered(c, i)
    requires OthersUntouched(c, c') && Served(c', true, c.queue, sent)
    ensures Lost(c', i) && !Partition(c')
  {
    NextWasQueued(c', c.queue, sent);
    assert !Answered(c', i);
  }

  // It stays lost while other nodes answer, time out or fail.
  lemma StaysLost(c: Context, c': Context, c'': Context, i: nat, j: nat, sent: seq<Request>)
    requires Lost(c, i) && j < |c.nodes| && i != j
    requires || (exists stop, row, status :: c' == Filed(c, j, stop, row, status))
             || (exists failure :: c' == Returned(c, j, failure))
    requires OthersUntouched(c', c'') && Served(c'', true, c'.queue, sent)
    ensures Lost(c'', i)
  {
    assert i !in c'.queue && !Answered(c', i);
    Stranded(c', c'', i, sent);
  }

  // Once node i has been dealt with, the queue, the outstanding node and the
  // nodes done are a partition exactly when the response was the expected one.
  lemma ResponseSettled(c: Context, i: nat, stop: bool, row: Row, status: Status, c': Context, running: bool,
                        sent: seq<Request>, messages: seq<Message>, now: real)
    requires Sound(c, now) && Partition(c) && i < |c.nodes| && row.status == Some(status)
    requires var filed := Filed(c, i, stop, row, status);
      && OthersUntouched(filed, c') && Served(c', running, filed.queue, sent)
      && Outcome(Ready(filed), running, c', messages)
    ensures var expected := c.current == Some(i) && status != OtherStatus;
      && (running ==> (Partition(c') <==> expected) && (!expected ==> Lost(c', c.current.value)))
      && (expected ==> Outcome(true, running, c', messages))
  {
    ResponseFiled(c, i, stop, row, status, now);
    if running && !(c.current == Some(i) && status != OtherStatus) {
      Stranded(Filed(c, i, stop, row, status), c', c.current.value, sent);
    }
  }

  // Does the row hold what a response said?
  ghost predicate Holds(c: Context, i: nat, status: Status, text: Option<string>) {
    && i in c.results && c.results[i].status == Some(status)
    && match text
       case None => c.results[i].lastError == None
       case Some(s) => c.results[i].lastError == Some(Reported(s))
  }

  // The row of a node that is not asked again holds what its response said.
  lemma ResponseKept(c: Context, i: nat, stop: bool, status: Status, text: Option<string>, c': Context)
    requires i < |c.nodes| && i !in c.queue && status != StatusError
    requires OthersUntouched(Filed(c, i, stop, RowOf(status, text), status), c')
    ensures Holds(c', i, status, text)
  {
  }

  class OnEachExecutor {
    const requestTimeout: nat
    const resendInterval: nat
    var running: bool        // is there a context?
    var context: Context
    var now: real            // the clock
    var requests: seq<Request> // node requests sent
    var outbox: seq<Message> // command results sent

    ghost predicate Valid()
      reads this
    {
      resendInterval > 0 && (running ==> Sound(context, now) && Partition(context))
    }

    constructor (requestTimeout: nat, resendInterval: nat, clock: real)
      requires resendInterval > 0
      ensures Valid() && !running && outbox == [] && requests == [] && now == clock
      ensures this.requestTimeout == requestTimeout && this.resendInterval == resendInterval
    {
      this.requestTimeout, this.resendInterval := requestTimeout, resendInterval;
      running, now, requests, outbox := false, clock, [], [];
      context := Context([], [], None, 0, 0.0, resendInterval, map[]);
    }

    // time.time(): the clock never goes back.
    method ReadClock() returns (t: real)
      modifies this`now
      ensures old(now) <= now == t
    {
      var elapsed: real := *;
      if elapsed > 0.0 {
        now := now + elapsed;
      }
      t := now;
    }

    method Sleep(duration: real)
      requires duration >= 0.0
      modifies this`now
      ensures now >= old(now) + duration
    {
      now := now + duration;
      var _ := ReadClock();
    }

    method RequestNextNode()
      requires running && Sound(context, now)
      modifies this`running, this`context, this`now, this`requests, this`outbox
      ensures Sound(context, now) && old(requests) <= requests && old(outbox) <= outbox
      ensures Asked(old(context), context, running, requests[|old(requests)|..], outbox[|old(outbox)|..])
      decreases Remaining(context.nodes, MaxAttempts(context)), 1
    {
      var t := ReadClock();
      if t - context.startTime >= context.timeframe as real {
        SendResult(Some(OutOfTime));
        NobodyAsked(context, outbox[|old(outbox)|..]);
        assert requests[|old(requests)|..] == [];
        return;
      }
      if context.queue == [] {
        SendResult(None);
        NobodyAsked(context, outbox[|old(outbox)|..]);
        assert requests[|old(requests)|..] == [];
        return;
      }
      AskFirst();
    }

    method AskFirst()
      requires running && Sound(context, now) && context.queue != []
      requires now - context.startTime < context.timeframe as real
      modifies this`running, this`context, this`now, this`requests, this`outbox
      ensures Sound(context, now) && old(requests) <= requests && old(outbox) <= outbox
      ensures Asked(old(context), context, running, requests[|old(requests)|..], outbox[|old(outbox)|..])
      decreases Remaining(context.nodes, MaxAttempts(context)), 0
    {
      var i := TakeFirst();
      var sent: bool := *;
      requests := requests + [Request(i, sent)];
      if sent {
        AskedOnce(old(context), context, i);
        assert requests[|old(requests)|..] == [Request(i, true)] && outbox[|old(outbox)|..] == [];
      } else {
        ghost var asked := context;
        RequestFailed(i);
        ghost var later := requests[|old(requests)| + 1..];
        AskedAgain(old(context), asked, context, i, running, later, outbox[|old(outbox)|..]);
        SuffixSplits(old(requests), Request(i, false), requests);
      }
    }

    // Takes the first node off the queue and begins its next attempt.
    method TakeFirst() returns (i: nat)
      requires Sound(context, now) && context.queue != []
      requires now - context.startTime < context.timeframe as real
      modifies this`context, this`now
      ensures Sound(context, now) && i == old(context).queue[0] < |old(context).nodes|
      ensures Attempted(old(context).(queue := old(context).queue[1..]), context, i)
      ensures |context.queue| < |context.nodes|
    {
      i := context.queue[0];
      assert i in context.queue;
      context := context.(queue := context.queue[1..]);
      assert forall q :: q in context.queue ==> q in old(context).queue;
      BeginAttempt(i);
    }

    // Waits until the resend interval has passed, then stamps the attempt.
    method BeginAttempt(i: nat)
      requires Sound(context, now) && i < |context.nodes|
      requires now - context.startTime < context.timeframe as real
      modifies this`context, this`now
      ensures Sound(context, now)
      ensures Attempted(old(context), context, i)
    {
      var node := context.nodes[i];
      var t := ReadClock();
      t := t - node.lastAttemptTime;
      if t < context.resendInterval as real {
        Sleep(context.resendInterval as real - t);
      }
      t := ReadClock();
      AttemptMade(context, i, old(now), t);
      context := Stamped(context, i, t);
    }

    method RequestFailed(i: nat)
      requires running && Sound(context, now) && i < |context.nodes| && |context.queue| < |context.nodes|
      modifies this`running, this`context, this`now, this`requests, this`outbox
      ensures Sound(context, now) && old(requests) <= requests && old(outbox) <= outbox
      ensures Asked(Returned(old(context), i, NotDelivered(old(context).nodes[i].attempts)), context, running,
                    requests[|old(requests)|..], outbox[|old(outbox)|..])
      decreases Remaining(context.nodes, MaxAttempts(context)), 2
    {
      Requeue(i, NotDelivered(context.nodes[i].attempts));
      RequestNextNode();
    }

    // Notes the failure and returns the node to the queue.
    method Requeue(i: nat, failure: Failure)
      requires Sound(context, now) && i < |context.nodes| && |context.queue| < |context.nodes|
      modifies this`context
      ensures Sound(context, now) && context == Returned(old(context), i, failure)
      ensures Partition(old(context)) && old(context).current == Some(i) ==> Ready(context)
      ensures Remaining(context.nodes, MaxAttempts(context)) == Remaining(old(context).nodes, MaxAttempts(context)) >= 0
    {
      StopTimer(i);
      NoteError(i, failure);
      context := context.(current := None, queue := context.queue + [i]);
      FailureRequeued(old(context), context, i);
    }

    method StopTimer(i: nat)
      requires Sound(context, now) && i < |context.nodes|
      modifies this`context
      ensures Sound(context, now)
      ensures context == old(context).(nodes := old(context).nodes[i := old(context).nodes[i].(timerArmed := false)])
      ensures Remaining(context.nodes, MaxAttempts(context)) == Remaining(old(context).nodes, MaxAttempts(context)) >= 0
    {
      var node := context.nodes[i].(timerArmed := false);
      RemainingUpdate(context.nodes, MaxAttempts(context), i, node);
      context := context.(nodes := context.nodes[i := node]);
      RemainingNonNegative(context.nodes, MaxAttempts(context));
    }

    method NoteError(i: nat, failure: Failure)
      modifies this`context
      ensures context == Noted(old(context), i, failure)
    {
      var row := if i in context.results then context.results[i] else Row(None, None);
      context := context.(results := context.results[i := row.(lastError := Some(failure))]);
    }

    // The command message: a second one is refused while the first runs.
    method HandleControl(hosts: seq<string>)
      requires Valid()
      modifies this`running, this`context, this`now, this`requests, this`outbox
      ensures Valid() && old(outbox) <= outbox
      ensures old(running) ==> running && context == old(context) && outbox == old(outbox) + [AlreadyRunning]
      ensures !old(running) ==> CommandFor(context, hosts, requestTimeout, resendInterval)
      ensures old(requests) <= requests && (old(running) ==> requests == old(requests))
      ensures !old(running) ==> old(now) <= context.startTime <= now && Opened(context, requests[|old(requests)|..])
      ensures !old(running) ==> Served(context, running, Indices(|hosts|), requests[|old(requests)|..])
      ensures !old(running) ==> Sound(context, now) && Outcome(true, running, context, outbox[|old(outbox)|..])
    {
      if running {
        outbox := outbox + [AlreadyRunning];
        return;
      }
      var timeframe := |hosts| * requestTimeout * 12 / 10;
      var nodes, queue := NewNodes(hosts);
      var startTime := ReadClock();
      context := Context(nodes, queue, None, timeframe, startTime, resendInterval, map[]);
      running := true;
      FreshIsReady(context, hosts);
      ghost var start := context;
      RequestNextNode();
      AskedMeans(start, context, running, requests[|old(requests)|..], outbox[|old(outbox)|..]);
      FreshIsOpened(start, context, requests[|old(requests)|..]);
    }

    // A record for each host, and its index in the queue.
    method NewNodes(hosts: seq<string>) returns (nodes: seq<NodeData>, queue: seq<nat>)
      ensures |nodes| == |hosts| && forall j :: 0 <= j < |hosts| ==> nodes[j] == NewNode(hosts[j])
      ensures queue == Indices(|hosts|)
    {
      nodes, queue := [], [];
      for i := 0 to |hosts|
        invariant |nodes| == i && forall j :: 0 <= j < i ==> nodes[j] == NewNode(hosts[j])
        invariant queue == Indices(i)
      {
        nodes := nodes + [NodeData(hosts[i], 0, 0.0, None, false)];
        queue := queue + [i];
      }
    }

    // The timer of the outstanding request fires.
    method RequestTimeouted()
      requires Valid() && running
      modifies this`running, this`context, this`now, this`requests, this`outbox
      ensures Valid() && Sound(context, now) && SameCommand(old(context), context)
      ensures old(requests) <= requests && old(outbox) <= outbox
      ensures var i := old(context).current.value;
              var late := TimedOut(old(context).nodes[i].attempts);
              && Asked(Returned(old(context), i, late), context, running,
                       requests[|old(requests)|..], outbox[|old(outbox)|..])
              && (Times(requests[|old(requests)|..], i) == 0 ==>
                    i in context.results && context.results[i].lastError == Some(late))
      ensures Served(context, running, old(context).queue + [old(context).current.value], requests[|old(requests)|..])
      ensures Outcome(true, running, context, outbox[|old(outbox)|..])
    {
      var i := context.current.value;
      FewerThan(context.queue, |context.nodes|, i);
      Requeue(i, TimedOut(context.nodes[i].attempts));
      ghost var returned := context;
      RequestNextNode();
      AskedMeans(returned, context, running, requests[|old(requests)|..], outbox[|old(outbox)|..]);
      if Times(requests[|old(requests)|..], i) == 0 {
        TimeoutTold(old(context), i, TimedOut(old(context).nodes[i].attempts), context, requests[|old(requests)|..]);
      }
    }

    method FindNode(host: string) returns (i: Option<nat>)
      ensures i.Some? ==> First(context, host, i.value)
      ensures i == None ==> forall j :: 0 <= j < |context.nodes| ==> context.nodes[j].host != host
    {
      for j := 0 to |context.nodes|
        invariant forall k :: 0 <= k < j ==> context.nodes[k].host != host
      {
        if context.nodes[j].host == host {
          return Some(j);
        }
      }
      return None;
    }

    // A response keeps the partition exactly when its sender is the node the
    // leader is waiting for and its status is ok or error.
    method HandleResponse(host: string, status: Status, text: Option<string>)
      requires Valid() && running
      modifies this`running, this`context, this`now, this`requests, this`outbox
      ensures old(outbox) <= outbox && Sound(context, now) && SameCommand(old(context), context)
      ensures !Known(old(context), host) ==> running && context == old(context) && outbox == old(outbox)
      ensures Known(old(context), host) && running ==> (Partition(context) <==> Expected(old(context), host, status))
      ensures Known(old(context), host) && running && !Expected(old(context), host, status) ==>
        Lost(context, old(context).current.value)
      ensures Expected(old(context), host, status) ==> Outcome(true, running, context, outbox[|old(outbox)|..])
      ensures old(requests) <= requests
      ensures forall i :: First(old(context), host, i) ==>
        && Served(context, running, old(context).queue + (if status == StatusError then [i] else []),
                  requests[|old(requests)|..])
        && (i !in old(context).queue && status != StatusError ==> Holds(context, i, status, text))
    {
      var currentResponded := host == context.nodes[context.current.value].host;
      var found := FindNode(host);
      if found.Some? {
        TakeResponse(found.value, currentResponded, status, text);
      }
    }

    method TakeResponse(i: nat, currentResponded: bool, status: Status, text: Option<string>)
      requires Valid() && running && i < |context.nodes|
      modifies this`running, this`context, this`now, this`requests, this`outbox
      ensures old(outbox) <= outbox && old(requests) <= requests
      ensures Sound(context, now) && SameCommand(old(context), context)
      ensures Asked(Filed(old(context), i, currentResponded, RowOf(status, text), status), context, running,
                    requests[|old(requests)|..], outbox[|old(outbox)|..])
      ensures i !in old(context).queue && status != StatusError ==> Holds(context, i, status, text)
      ensures var queue := old(context).queue + if status == StatusError then [i] else [];
              Served(context, running, queue, requests[|old(requests)|..])
      ensures running ==> (Partition(context) <==> old(context).current == Some(i) && status != OtherStatus)
      ensures running && !(old(context).current == Some(i) && status != OtherStatus) ==>
        Lost(context, old(context).current.value)
      ensures old(context).current == Some(i) && status != OtherStatus ==>
        Outcome(true, running, context, outbox[|old(outbox)|..])
    {
      var row := RowOf(status, text);
      FileResponse(i, currentResponded, row, status);
      ghost var filed := context;
      RequestNextNode();
      AskedMeans(filed, context, running, requests[|old(requests)|..], outbox[|old(outbox)|..]);
      ResponseSettled(old(context), i, currentResponded, row, status, context, running,
                      requests[|old(requests)|..], outbox[|old(outbox)|..], old(now));
      if i !in old(context).queue && status != StatusError {
        ResponseKept(old(context), i, currentResponded, status, text, context);
      }
    }

    // Files a response and queues the node again after an error.
    method FileResponse(i: nat, stop: bool, row: Row, status: Status)
      requires Valid() && running && i < |context.nodes| && row.status == Some(status)
      modifies this`context
      ensures context == Filed(old(context), i, stop, row, status) && Sound(context, now)
      ensures context.queue == old(context).queue + if status == StatusError then [i] else []
    {
      ResponseFiled(context, i, stop, row, status, now);
      if stop {
        StopTimer(i);
      }
      context := context.(results := context.results[i := row]);
      context := context.(nodes := context.nodes[i := context.nodes[i].(requestOk := Some(status == StatusOk))]);
      if status == StatusError {
        context := context.(queue := context.queue + [i]);
      }
      assert context == Filed(old(context), i, stop, row, status);
    }

    method SendResult(e: Option<LastError>)
      requires running
      modifies this`running, this`outbox
      ensures !running && |outbox| == |old(outbox)| + 1 && outbox[..|old(outbox)|] == old(outbox)
      ensures var m := outbox[|old(outbox)|];
        Truthful(m) && m.context == context && ErrorOf(context, e, m.lastError)
    {
      var status := if forall i :: 0 <= i < |context.nodes| ==> Answered(context, i) then StatusOk else StatusError;
      var lastError := e;
      if e == None && exists i :: i in context.results && context.results[i].lastError.Some? {
        var i :| i in context.results && context.results[i].lastError.Some?;
        lastError := Some(NodeFailure(context.results[i].lastError.value));
      }
      var m := CommandResult(status, lastError, context);
      outbox := outbox + [m];
      running := false;
    }
  }

  datatype Event =
    | Control(hosts: seq<string>)
    | Response(host: string, status: Status, text: Option<string>)
    | TimerFires

  // What the leader reports of the command on the hosts is true: it failed
  // because the time frame closed, or every node answered ok and is reported
  // so; and no node was asked more often than the time frame allows.
  ghost predicate Good(m: Message, hosts: seq<string>, requestTimeout: nat, resendInterval: nat) {
    m.CommandResult? ==>
      && CommandFor(m.context, hosts, requestTimeout, resendInterval)
      && Truthful(m) && (m.lastError == Some(OutOfTime) || Complete(m))
      && m.context.resendInterval > 0
      && forall i :: 0 <= i < |m.context.nodes| ==> m.context.nodes[i].attempts <= MaxAttempts(m.context)
  }

  ghost predicate AnswersOne(m: Message, n: nat, events: seq<Event>, timeout: nat, interval: nat) {
    n < |events| && events[n].Control? && Good(m, events[n].hosts, timeout, interval)
  }

  // answered[i] is the number of the event whose command message i answers: no
  // command is answered twice, each message is good for its command, and the
  // results come in the order of their commands.
  ghost predicate Answers(outbox: seq<Message>, answered: seq<nat>, events: seq<Event>, timeout: nat, interval: nat) {
    && |answered| == |outbox| && Distinct(answered)
    && (forall i :: 0 <= i < |outbox| ==> AnswersOne(outbox[i], answered[i], events, timeout, interval))
    && (forall i, j :: 0 <= i < j < |outbox| && outbox[i].CommandResult? && outbox[j].CommandResult? ==>
          answered[i] < answered[j])
  }

  // What a run has sent, which commands that answered, and the command running.
  datatype Ledger = Ledger(outbox: seq<Message>, answered: seq<nat>, running: bool, context: Context, current: nat)

  // The current command is not answered yet, and all results are of earlier
  // ones.
  ghost predicate Underway(l: Ledger, events: seq<Event>, timeout: nat, interval: nat) {
    && l.current < |events| && events[l.current].Control? && l.current !in l.answered
    && CommandFor(l.context, events[l.current].hosts, timeout, interval)
    && |l.answered| == |l.outbox|
    && forall i :: 0 <= i < |l.answered| && l.outbox[i].CommandResult? ==> l.answered[i] < l.current
  }

  function Commands(events: seq<Event>): nat {
    if events == [] then 0 else Commands(events[..|events| - 1]) + if events[|events| - 1].Control? then 1 else 0
  }

  // After the first k events.
  ghost predicate Kept(l: Ledger, events: seq<Event>, k: nat, timeout: nat, interval: nat) {
    && k <= |events| && Answers(l.outbox, l.answered, events, timeout, interval)
    && (forall i :: 0 <= i < |l.answered| ==> l.answered[i] < k)
    && (l.running ==> l.current < k && Underway(l, events, timeout, interval))
    && |l.answered| + (if l.running then 1 else 0) == Commands(events[..k])
  }

  lemma OneMoreEvent(events: seq<Event>, k: nat)
    requires k < |events|
    ensures Commands(events[..k + 1]) == Commands(events[..k]) + if events[k].Control? then 1 else 0
  {
    assert events[..k + 1][..k] == events[..k];
  }

  lemma AnsweredOneMore(l: Ledger, m: Message, n: nat, events: seq<Event>, timeout: nat, interval: nat)
    requires Answers(l.outbox, l.answered, events, timeout, interval)
    requires n !in l.answered && AnswersOne(m, n, events, timeout, interval)
    requires m.CommandResult? ==> forall i :: 0 <= i < |l.outbox| && l.outbox[i].CommandResult? ==> l.answered[i] < n
    ensures Answers(l.outbox + [m], l.answered + [n], events, timeout, interval)
  {
  }

  // A command is refused while another runs.
  lemma CommandRefused(l: Ledger, events: seq<Event>, k: nat, timeout: nat, interval: nat)
    requires Kept(l, events, k, timeout, interval) && k < |events| && events[k].Control? && l.running
    ensures Kept(l.(outbox := l.outbox + [AlreadyRunning], answered := l.answered + [k]), events, k + 1,
                 timeout, interval)
  {
    OneMoreEvent(events, k);
    AnsweredOneMore(l, AlreadyRunning, k, events, timeout, interval);
  }

  // A command starts, and runs on or ends with a result.
  lemma CommandStarted(l: Ledger, c: Context, events: seq<Event>, k: nat, timeout: nat, interval: nat)
    requires Kept(l, events, k, timeout, interval) && k < |events| && events[k].Control? && !l.running
    requires CommandFor(c, events[k].hosts, timeout, interval)
    ensures Kept(l.(running := true, context := c, current := k), events, k + 1, timeout, interval)
  {
    OneMoreEvent(events, k);
  }

  // The running command goes on.
  lemma CommandGoesOn(l: Ledger, c: Context, events: seq<Event>, k: nat, timeout: nat, interval: nat)
    requires Kept(l, events, k, timeout, interval) && k < |events| && !events[k].Control?
    requires l.running ==> SameCommand(l.context, c)
    ensures Kept(l.(context := c), events, k + 1, timeout, interval)
  {
    OneMoreEvent(events, k);
  }

  // The running command has ended with a result.
  lemma CommandEnded(l: Ledger, m: Message, events: seq<Event>, k: nat, timeout: nat, interval: nat)
    requires Kept(l, events, k, timeout, interval) && l.running
    requires m.CommandResult? && Good(m, events[l.current].hosts, timeout, interval)
    ensures Kept(l.(running := false, outbox := l.outbox + [m], answered := l.answered + [l.current]),
                 events, k, timeout, interval)
  {
    AnsweredOneMore(l, m, l.current, events, timeout, interval);
  }

  // A result from a sound context tells the truth about its command.
  lemma ResultIsGood(c: Context, now: real, sent: seq<Message>, hosts: seq<string>, timeout: nat, interval: nat)
    requires Sound(c, now) && CommandFor(c, hosts, timeout, interval) && Outcome(true, false, c, sent)
    ensures |sent| == 1 && sent[0].CommandResult? && Good(sent[0], hosts, timeout, interval)
  {
    assert forall i :: 0 <= i < |c.nodes| ==> Paced(c, c.nodes[i], now);
  }

  // The command of the ledger still runs, or its result has just been sent.
  lemma CommandSettled(leader: OnEachExecutor, l: Ledger, events: seq<Event>, k: nat)
    requires l.running && l.context == leader.context && l.outbox <= leader.outbox
    requires Kept(l, events, k, leader.requestTimeout, leader.resendInterval)
    requires if leader.running then leader.outbox == l.outbox
             else Sound(leader.context, leader.now) && Outcome(true, false, leader.context, leader.outbox[|l.outbox|..])
    ensures Kept(Ledger(leader.outbox, if |leader.outbox| > |l.outbox| then l.answered + [l.current] else l.answered,
                        leader.running, leader.context, l.current),
                 events, k, leader.requestTimeout, leader.resendInterval)
  {
    if !leader.running {
      var sent, timeout, interval := leader.outbox[|l.outbox|..], leader.requestTimeout, leader.resendInterval;
      ResultIsGood(leader.context, leader.now, sent, events[l.current].hosts, timeout, interval);
      CommandEnded(l, sent[0], events, k, timeout, interval);
      assert leader.outbox == l.outbox + [sent[0]];
    }
  }

  method HandleCommand(leader: OnEachExecutor, ghost answered: seq<nat>, ghost current: nat, events: seq<Event>, k: nat)
    requires leader.Valid() && k < |events| && events[k].Control? && (!leader.running ==> current == k)
    requires Kept(Ledger(leader.outbox, answered, leader.running, leader.context, current),
                  events, k, leader.requestTimeout, leader.resendInterval)
    modifies leader
    ensures leader.Valid()
    ensures Kept(Ledger(leader.outbox, if |leader.outbox| > |old(leader.outbox)| then answered + [k] else answered,
                        leader.running, leader.context, current),
                 events, k + 1, leader.requestTimeout, leader.resendInterval)
  {
    ghost var l := Ledger(leader.outbox, answered, leader.running, leader.context, current);
    ghost var timeout, interval := leader.requestTimeout, leader.resendInterval;
    leader.HandleControl(events[k].hosts);
    if l.running {
      CommandRefused(l, events, k, timeout, interval);
    } else {
      CommandStarted(l, leader.context, events, k, timeout, interval);
      CommandSettled(leader, l.(running := true, context := leader.context), events, k + 1);
    }
  }

  // A timer, or a response of the node being asked or of an unknown one.
  method HandleEvent(leader: OnEachExecutor, event: Event)
    requires leader.Valid() && leader.running && !event.Control?
    modifies leader
    ensures leader.Valid() && Sound(leader.context, leader.now) && SameCommand(old(leader.context), leader.context)
    ensures old(leader.outbox) <= leader.outbox && (leader.running ==> leader.outbox == old(leader.outbox))
    ensures !leader.running ==> Outcome(true, false, leader.context, leader.outbox[|old(leader.outbox)|..])
  {
    match event {
      case TimerFires => leader.RequestTimeouted();
      case Response(host, status, text) =>
        var i := leader.FindNode(host);
        if i == None || (i == leader.context.current && status != OtherStatus) {
          leader.HandleResponse(host, status, text);
        }
    }
  }

  method HandleOther(leader: OnEachExecutor, ghost answered: seq<nat>, ghost current: nat, events: seq<Event>, k: nat)
    requires leader.Valid() && k < |events| && !events[k].Control?
    requires Kept(Ledger(leader.outbox, answered, leader.running, leader.context, current),
                  events, k, leader.requestTimeout, leader.resendInterval)
    modifies leader
    ensures leader.Valid()
    ensures Kept(Ledger(leader.outbox,
                        if |leader.outbox| > |old(leader.outbox)| then answered + [current] else answered,
                        leader.running, leader.context, current),
                 events, k + 1, leader.requestTimeout, leader.resendInterval)
  {
    ghost var l := Ledger(leader.outbox, answered, leader.running, leader.context, current);
    if leader.running {
      HandleEvent(leader, events[k]);
    }
    CommandGoesOn(l, leader.context, events, k, leader.requestTimeout, leader.resendInterval);
    if l.running {
      CommandSettled(leader, l.(context := leader.context), events, k + 1);
    }
  }

  // A leader fed with any events, except that a node answers only while it is
  // the one being asked and with status ok or error: every command is answered
  // by one message of its own, which is good, except the last while it is
  // still running.
  method Play(requestTimeout: nat, resendInterval: nat, clock: real, events: seq<Event>)
    returns (outbox: seq<Message>, answered: seq<nat>, running: bool)
    requires resendInterval > 0
    ensures Answers(outbox, answered, events, requestTimeout, resendInterval)
    ensures |answered| + (if running then 1 else 0) == Commands(events)
  {
    var leader := new OnEachExecutor(requestTimeout, resendInterval, clock);
    var current := 0;
    answered := [];
    for k := 0 to |events|
      invariant fresh(leader) && leader.Valid()
      invariant leader.requestTimeout == requestTimeout && leader.resendInterval == resendInterval
      invariant Kept(Ledger(leader.outbox, answered, leader.running, leader.context, current),
                     events, k, requestTimeout, resendInterval)
    {
      var sent := |leader.outbox|;
      if events[k].Control? {
        if !leader.running {
          current := k;
        }
        HandleCommand(leader, answered, current, events, k);
        if |leader.outbox| > sent {
          answered := answered + [k];
        }
      } else {
        HandleOther(leader, answered, current, events, k);
        if |leader.outbox| > sent {
          answered := answered + [current];
        }
      }
    }
    assert events[..|events|] == events;
    outbox, running := leader.outbox, leader.running;
  }
}
