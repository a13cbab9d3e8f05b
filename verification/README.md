# Scalarizr: a verified model of its self-contained cores

Scalarizr is an agent that runs on a cloud instance and configures the services on it. Most of it moves data between files,
processes and messages; this project models the parts that decide something, and proves what they promise.

Three kinds of core are modelled, one module each.

- **Linked and cached data structures** (`externals/`). `OrderedDicts`: the circular doubly linked list of `OrderedDict`
  refines a plain sequence of keys with a map. `AbstractBaseClasses` (with `Graphs`): the positive cache and the versioned
  negative cache of `ABCMeta` answer reachability in a growing class graph, which `register` keeps acyclic. `WeakSets`: the
  deferred removals of `WeakSet` answer as a plain set of the live members. `Counters` and `AbstractSets`: the multiset algebra
  of `Counter` and the order-independent hash and comparisons of `Set`.
- **Distributed protocols as steps.** `OnEachExecutors`: the Cassandra leader that asks all nodes in turn. `Barriers`: the rs-0
  start-up barrier of a MongoDB cluster. `ArbiterRule`: the parity rule for arbiters. `ClusterTermination`: the watcher that
  terminates a cluster. `ShardDraining`: the progress of draining a shard.
- **Configuration reconciliation.** `Presets`: applying a preset and reading it back. `IniFiles` and `IniUpdates`: the parser and
  printers, and the updater, of `ScalarizrCnf.__update_ini`. `SshConfig`: the rewriting of `sshd_config` and the squeezing of blank lines.
  `CpuInfo`: the segmentation of `/proc/cpuinfo`.

`Sequences`, `Arithmetic`, `Text` and `Wrappers` hold the facts and small types these share.

Each core has the same shape. A specification on values says what the operations mean (`Step`, `Run`, `Watched`, `Applied`,
`Rewrite`, `Segmentation`, ...). A class or a method with loops follows the source statement by statement and is proved against
the specification; a driver (`ExecuteAll`, `Play`, `Run`) carries the proof over every sequence of operations or events. Lemmas
then say what the specification promises.

## What the code does not promise

Where a property that one would expect fails, the model keeps the code as it is, a lemma names an input or a family of inputs, and
the exact condition is proved.

- The termination watcher never sends ok when the host list repeats a pair of shard and replica set index: the number of
  terminated nodes stays below the number of listed hosts (`ClusterTermination.RepeatedHostNeverOk`). A node recorded as unreachable is
  overwritten as pending at once, so the state is never seen (`SendTerminate`).
- Losing a replica can leave two arbiters and an even number of voters when the arbiter runs on a third host and the number of
  replicas was odd (`ArbiterRule.HostDownSettles`, `TwoArbitersArise`); this needs a replica that joined without being announced.
- An applied preset does not read back as itself when a boolean alias is itself aliased, when a value is written as the empty string
  and the default stands for something else, or when none of its options is listed, as with defaults over empty entries
  (`Presets.AppliedPresetReadsBack`, `ChainedAliasDoesNotReadBack`, `EmptyAliasDoesNotReadBack`, `BlankEntryDoesNotReadBack`). An
  option with a section is looked up under its bare name, and one that is not supported is not written: both read back as what is
  found there (`SectionedOptionDoesNotReadBack`, `UnsupportedOptionDoesNotReadBack`).
- An ini file does not parse to what was written to it when it has a section header of spaces only, when a given value has spaces at
  its ends or a newline, or when the file ends with a comment that lacks its newline and something is appended after it
  (`IniUpdates.UpdateReadsBack`, `GivenReadsItself`, `IniFiles.BlankHeaderIsLost`, `IniUpdates.OpenEndSwallowsOption`,
  `PaddedValueIsStripped`, `NewlineValueAddsOption`). A None value is written as an empty value for a new option and as the word None
  for an option that exists, so that a second update with the same options changes the file (`IniUpdates.GivenReadsBack`,
  `UpdateTwice`). Nothing is written at all when a section called DEFAULT, in any case, is given that the parser in memory does not
  have: its `add_section` refuses the name from Python 2.6 on (`IniUpdates.UpdateIni`, `DefaultIsRefused`).
- The pattern for a required option of `sshd_config` has no end anchor, so a line with a longer value is taken for it and left alone:
  with `AuthorizedKeysFile %h/.ssh/authorized_keys2` sshd reads another file than the one the agent writes. A line whose option has a
  longer name, as `AuthorizedKeysFile2`, is taken for the option and overwritten (`SshConfig.SetupFilePromise`, `LongerValueIsKept`,
  `OtherKeysFileIsKept`, `LongerNameIsLost`, `SecondKeysFileIsLost`).
- An option appended to an `sshd_config` without a final newline runs into the last line, unless that line is itself rewritten
  (`SshConfig.SetupFilePromise`, `LosesOption`, `UnterminatedFileLosesOption`).
- Union plus intersection of counters is not the sum when an element is counted positive in one and negative in the other, and
  difference plus intersection is not the first counter when that holds a count below one or the second a negative one
  (`Counters.UnionPlusIntersection`, `DifferencePlusIntersection`, `OpposedCountsBreakTheLaw`).
- A response from another node than the one being asked, or with a status other than ok and error, strands the node being asked
  (`OnEachExecutors.HandleResponse`, `Stranded`, `StaysLost`); so does a response from the second of two hosts listed with one
  address.
- The first node of a shard never leaves the start-up barrier once a replica of its own shard is listed that does not run yet: the
  entry this makes in the status table is marked by no announcement (`Barriers.OwnReplicaBlocks`). Nor does a node whose
  announcement reaches a peer by which it was not listed: the peer takes it for notified, and may leave without having
  answered (`UnlistedIsLeftBehind`, `StaysBehind`).
- A line of `/proc/cpuinfo` with two colons or more ends `cpu_info` with an error (`CpuInfo.CpuInfo`).

## Model

| member | source | states |
|---|---|---|
| `AbstractBaseClasses.ExecuteAll` | src/scalarizr/externals/abc.py:106-186 | over every run of class statements, `register`, `issubclass` and `isinstance`, the cached implementation gives exactly the answers of plain reachability through registry and direct-subclass edges |
| `AbstractBaseClasses.EveryRunAcyclic` | src/scalarizr/externals/abc.py:106-118 | the two tests of `register` keep the registry-plus-subclass graph acyclic in every reachable state |
| `AbstractBaseClasses.AbcWorld.SubclassCheck` | src/scalarizr/externals/abc.py:149-186 | answers true exactly when the class reaches the subclass, keeps every positive cache entry true and every negative one true while its version is current, leaves the answer in a cache, and terminates because the descendants shrink |
| `AbstractBaseClasses.AbcWorld.Search` | src/scalarizr/externals/abc.py:170-186 | the mro test and both loops decide reachability, and the answer is left in the positive or the negative cache |
| `AbstractBaseClasses.AbcWorld.SearchAny` | src/scalarizr/externals/abc.py:174-183 | a search over registered classes or direct subclasses finds a class reaching the subclass or shows that none of them does |
| `AbstractBaseClasses.AbcWorld.NoSuccessorReaches` | src/scalarizr/externals/abc.py:184-186 | when the mro and both loops say no, the class does not reach the subclass, so the negative entry is true |
| `AbstractBaseClasses.AbcWorld.InstanceCheck` | src/scalarizr/externals/abc.py:129-147 | the inlined cache tests agree with the graph: true exactly when the class reaches the `__class__` or the type of the instance |
| `AbstractBaseClasses.AbcWorld.RegisterClass` | src/scalarizr/externals/abc.py:106-118 | no-op for a subclass already known, refusal exactly when an edge would close a cycle, otherwise the new edge; nothing else changes the graph |
| `AbstractBaseClasses.AbcWorld.AddToRegistry` | src/scalarizr/externals/abc.py:117-118 | raising the counter keeps all caches sound when an edge is added |
| `AbstractBaseClasses.AbcWorld.Invalidate` | src/scalarizr/externals/abc.py:155-158 | clearing the negative cache and taking the current version keeps all caches sound |
| `AbstractBaseClasses.AbcWorld.DefineClass` | src/scalarizr/externals/abc.py:87-104 | a class statement adds a leaf below its bases without raising the counter, and all caches stay sound |
| `AbstractBaseClasses.Execute` | src/scalarizr/externals/abc.py:87-186 | one operation on the cached world is one step of the reachability specification |
| `AbstractBaseClasses.ClassStatementMeans` | src/scalarizr/externals/abc.py:87-104 | after any run: right after a class statement the new class is a subclass of itself and of exactly what some base is a subclass of, nothing else is a subclass of it, and other classes are related as before; stated on answers alone |
| `AbstractBaseClasses.RegistrationMeans` | src/scalarizr/externals/abc.py:106-118 | `register` is left out or refused exactly as `issubclass` answers before it; if it registers, one class becomes a subclass of another exactly when it was or by way of the new registration |
| `AbstractBaseClasses.InstanceMeans` | src/scalarizr/externals/abc.py:129-147 | `isinstance` answers true exactly when `issubclass` does for the `__class__` or the type of the instance |
| `AbstractBaseClasses.OthersChangeNothing` | src/scalarizr/externals/abc.py:106-186 | whatever neither creates nor registers a class changes no later answer |
| `AbstractBaseClasses.NamesAreCreations` | src/scalarizr/externals/abc.py:87-104 | classes are numbered in the order of their creation and only those have a name |
| `Graphs.AddEdgeAcyclic` | src/scalarizr/externals/abc.py:110-118 | adding an edge keeps a graph acyclic if and only if its target does not reach its source |
| `Graphs.DescendantsShrink` | src/scalarizr/externals/abc.py:174-183 | descendants shrink along every edge of an acyclic graph: the measure of the recursive search |
| `Graphs.AddLeafAcyclic` | src/scalarizr/externals/abc.py:87-104 | a new class below existing ones keeps the graph acyclic |
| `Graphs.ReachesAfterAddEdge` | src/scalarizr/externals/abc.py:117-117 | what becomes reachable through a registration, and nothing more |
| `Graphs.ReachesLeaf` | src/scalarizr/externals/abc.py:87-104 | a new leaf is reached from itself and from exactly what reaches one of its parents |
| `OrderedDicts.ExecuteAll` | src/scalarizr/externals/collections.py:58-169 | every run of set, delete, pop, popitem, setdefault, update, clear, iteration and reversed iteration on the linked ring gives the outputs of a plain sequence of keys with a map |
| `OrderedDicts.Execute` | src/scalarizr/externals/collections.py:76-169 | one operation keeps the ring a well-formed circle indexed by the map and is one step of the sequence specification |
| `OrderedDicts.EveryOutputTells` | src/scalarizr/externals/collections.py:76-169 | after any run, what every operation returns and what it does to the order and the values, told by what iterating and `pop` give before and after it |
| `OrderedDicts.OrderListsKeys` | src/scalarizr/externals/collections.py:97-104 | after any run iterating lists each key that has a value exactly once |
| `OrderedDicts.OrderedDict.constructor` | src/scalarizr/externals/collections.py:58-74 | an empty ring around the sentinel |
| `OrderedDicts.OrderedDict.SetItem` | src/scalarizr/externals/collections.py:76-84 | an existing key keeps its place, a new one goes last |
| `OrderedDicts.OrderedDict.PutLast` | src/scalarizr/externals/collections.py:81-83 | the new link joins the circle between the last link and the sentinel |
| `OrderedDicts.OrderedDict.DelItem` | src/scalarizr/externals/collections.py:86-95 | deletes the key and its link, keeping the rest in order; a missing key is an error that changes nothing |
| `OrderedDicts.OrderedDict.Bypass` | src/scalarizr/externals/collections.py:92-95 | joining the neighbours of a link leaves the circle of all other links in order |
| `OrderedDicts.OrderedDict.Iter` | src/scalarizr/externals/collections.py:97-104 | following NEXT from the sentinel yields the keys in order |
| `OrderedDicts.OrderedDict.Reversed` | src/scalarizr/externals/collections.py:106-113 | following PREV from the sentinel yields the reverse |
| `OrderedDicts.OrderedDict.Clear` | src/scalarizr/externals/collections.py:126-135 | leaves an empty dictionary and a well-formed ring, the emptied links being cut off |
| `OrderedDicts.OrderedDict.PopItem` | src/scalarizr/externals/collections.py:160-169 | removes and returns the last or the first pair; an error when empty |
| `OrderedDicts.OrderedDict.Pop` | src/scalarizr/externals/_abcoll.py:457-466 | the value and deletion, or the default, or an error |
| `OrderedDicts.OrderedDict.Update` | src/scalarizr/externals/_abcoll.py:484-503 | the pairs are put one after the other |
| `OrderedDicts.OrderedDict.SetDefault` | src/scalarizr/externals/_abcoll.py:505-510 | the present value, or the default put last |
| `OrderedDicts.OrderedDict.Equals` | src/scalarizr/externals/collections.py:193-201 | comparing sizes and pairs decides equality of two ordered dictionaries, order included |
| `OrderedDicts.ItemsDetermine` | src/scalarizr/externals/collections.py:193-201 | the lists of pairs are equal exactly when order and contents are |
| `OrderedDicts.StepKeepsWellFormed` | src/scalarizr/externals/collections.py:76-169 | after every operation each dict key occurs exactly once in the order |
| `OrderedDicts.DeleteKeepsOrder` | src/scalarizr/externals/collections.py:86-95 | after a deletion one key precedes another exactly when it did before and neither was deleted |
| `OrderedDicts.PutAllMeans` | src/scalarizr/externals/_abcoll.py:484-503 | after `update` old keys keep their places, new ones follow, and each key has the last value given for it or its old one |
| `OrderedDicts.ReverseAt` | src/scalarizr/externals/collections.py:106-113 | reversed order position by position |
| `OrderedDicts.PopItemTakesEnd` | src/scalarizr/externals/collections.py:160-169 | `popitem` takes the last or first key and keeps the others in order |
| `OrderedDicts.PopItemUndoesPut` | src/scalarizr/externals/collections.py:160-169 | `popitem` undoes the insertion of a new key |
| `OrderedDicts.DrainOrder` | src/scalarizr/externals/collections.py:160-169 | calling `popitem` until it fails yields the keys in order, or in reverse |
| `OnEachExecutors.Play` | src/scalarizr/handlers/cassandra.py:681-857 | for any clock and any events in which a node answers only while it is asked and with ok or error: every command gets exactly one message of its own (unless it is still running), results come in the order of their commands, each about the hosts of its command, reporting ok exactly when all nodes answered ok, failing only when the time frame closed, with no node asked more than ceil(timeframe / resend interval) + 1 times |
| `OnEachExecutors.HandleCommand` | src/scalarizr/handlers/cassandra.py:850-852 | a command is refused while another runs; otherwise it starts, and runs on or is answered by its result |
| `OnEachExecutors.HandleOther` | src/scalarizr/handlers/cassandra.py:853-858 | a timer or a response keeps the running command going or ends it with its own result |
| `OnEachExecutors.OnEachExecutor.HandleControl` | src/scalarizr/handlers/cassandra.py:681-738 | refuses a second command; otherwise the hosts are asked in the order listed, going on to the next only past failed sends, within 120% of the summed timeouts; the attempts and rows are those of the requests sent |
| `OnEachExecutors.OnEachExecutor.RequestNextNode` | src/scalarizr/handlers/cassandra.py:741-766 | the requests sent go to the nodes in the order of the queue, and round again, past failed sends only; the node asked last is outstanding with the others behind it, or one truthful result is sent, ok if the queue was empty; rows tell of the failures, other nodes are untouched; terminates even if every send fails |
| `OnEachExecutors.HeadIsAsked` | src/scalarizr/handlers/cassandra.py:746-759 | the first request goes to the head of the queue; if it gets through, that node is outstanding and the rest of the queue waits as it was |
| `OnEachExecutors.OthersComeFirst` | src/scalarizr/handlers/cassandra.py:778-793 | a node that was put at the end of the queue is asked only after a request to every other queued node |
| `OnEachExecutors.OnEachExecutor.Requeue` | src/scalarizr/handlers/cassandra.py:782-792 | the failure is noted in the row of the node, its timer is off and it goes to the end of the queue, for which there is room |
| `OnEachExecutors.OnEachExecutor.BeginAttempt` | src/scalarizr/handlers/cassandra.py:746-755 | attempts of a node are at least a resend interval apart, so the attempts left below the bound shrink |
| `OnEachExecutors.OnEachExecutor.RequestTimeouted` | src/scalarizr/handlers/cassandra.py:769-779 | the outstanding node goes to the end of the queue, for which the bounded queue has room, the others are asked first, its row tells of the timeout unless it is asked again, and the partition is kept |
| `OnEachExecutors.OnEachExecutor.RequestFailed` | src/scalarizr/handlers/cassandra.py:781-793 | after a failed send the node is at the end of the queue with its failure noted, and the requests go on from there in turn |
| `OnEachExecutors.OnEachExecutor.HandleResponse` | src/scalarizr/handlers/cassandra.py:808-824 | a response keeps queue, outstanding node and done nodes a partition if and only if the first node with the address of the sender is the one being asked and the status is ok or error; unknown senders change nothing |
| `OnEachExecutors.OnEachExecutor.TakeResponse` | src/scalarizr/handlers/cassandra.py:813-824 | the same for the node found by its address: its row holds the status and the error text of the response, after an error it goes to the end of the queue, and the queue is asked in turn |
| `OnEachExecutors.OnEachExecutor.SendResult` | src/scalarizr/handlers/cassandra.py:833-848 | the status is ok exactly when every node answered ok; the last error is the given one or that of some row |
| `OnEachExecutors.AttemptsBound` | src/scalarizr/handlers/cassandra.py:743-752 | a node that is asked while the time frame is open stays below the bound on attempts |
| `OnEachExecutors.AttemptMade` | src/scalarizr/handlers/cassandra.py:747-753 | stamping an attempt after the wait keeps all nodes paced and uses up one of the attempts left |
| `OnEachExecutors.FailureRequeued` | src/scalarizr/handlers/cassandra.py:791-792 | returning the outstanding node to the queue makes every node queued once or done |
| `OnEachExecutors.ResponseFiled` | src/scalarizr/handlers/cassandra.py:816-822 | a response filed for the node being asked with status ok or error leaves every node queued once or done; any other leaves the node that was being asked neither queued nor answered |
| `OnEachExecutors.ResponseSettled` | src/scalarizr/handlers/cassandra.py:808-824 | after the requests that follow a response the partition holds if and only if the response was the expected one |
| `OnEachExecutors.ResponseKept` | src/scalarizr/handlers/cassandra.py:819-824 | the row of a node that is not asked again holds the status and the error text of its response |
| `OnEachExecutors.Stranded` | src/scalarizr/handlers/cassandra.py:808-824 | after any other response the node that was being asked is neither queued nor asked again by the requests that follow, has not answered ok, and the partition is broken |
| `OnEachExecutors.StaysLost` | src/scalarizr/handlers/cassandra.py:769-824 | such a node stays lost while other nodes answer, time out or fail |
| `Barriers.EveryRunSafe` | src/scalarizr/handlers/mongodb.py:421-523 | in every interleaving of nodes and messages, once a node has left by the all-ready exit every rs-0 node has entered the barrier |
| `Barriers.EveryRunExplained` | src/scalarizr/handlers/mongodb.py:421-523 | the inductive invariant: tables cover all other shards, ready marks and announcements come only from nodes that entered |
| `Barriers.EveryRunInforms` | src/scalarizr/handlers/mongodb.py:421-516 | in every reachable state the table, the address and the handled messages of a waiting node are what the history of its messages tells |
| `Barriers.PhaseTells` | src/scalarizr/handlers/mongodb.py:421-523 | a node waits after entering unless some other host runs, leaves at a test if and only if every shard it knows of is ready by that history, and fails at an announcement of a shard it does not know |
| `Barriers.SendingTells` | src/scalarizr/handlers/mongodb.py:462-472 | an announcement is sent exactly to a peer with a known address that neither was notified nor announced itself since it was listed or changed |
| `Barriers.CanLeave` | src/scalarizr/handlers/mongodb.py:504-520 | a waiting node to which announcements of all shards not ready are on their way can leave |
| `Barriers.AllCanLeave` | src/scalarizr/handlers/mongodb.py:421-520 | a cluster of any size has a run in which all first nodes leave by the all-ready exit |
| `Barriers.StaysBehind` | src/scalarizr/handlers/mongodb.py:462-520 | a node that has no announcement from another, which does not wait any more and has sent it none, never leaves, whatever happens, until one of the two enters again |
| `Barriers.UnlistedIsLeftBehind` | src/scalarizr/handlers/mongodb.py:462-520 | a run in which this happens: the announcement of a node not listed yet marks it as notified, and the other leaves without having answered |
| `Barriers.OwnReplicaBlocks` | src/scalarizr/handlers/mongodb.py:431-450 | a listed replica of the own shard that does not run yet gets an entry that no announcement marks: the node never leaves, whatever happens, until it enters again |
| `Barriers.Play` | src/scalarizr/handlers/mongodb.py:421-523 | the imperative nodes go through exactly the phases of the specification |
| `Barriers.Perform` | src/scalarizr/handlers/mongodb.py:457-518 | one action on the imperative node is one step of the specification |
| `Barriers.BarrierNode.EnterBarrier` | src/scalarizr/handlers/mongodb.py:421-453 | the status table filled from the listed hosts, hosts of unknown shards skipped, a running host bypassing the barrier |
| `Barriers.BarrierNode.NotifyPeer` | src/scalarizr/handlers/mongodb.py:465-474 | an unnotified peer with an address is informed and marked only if the message got through |
| `Barriers.BarrierNode.HostChanged` | src/scalarizr/handlers/mongodb.py:477-502 | a HostInit or HostDown is handled once and resets the entry of another shard whose first node it is about |
| `Barriers.BarrierNode.ReceiveFrom` | src/scalarizr/handlers/mongodb.py:505-516 | an announcement marks its sender ready and notified; an unknown sender is an error |
| `Barriers.BarrierNode.Test` | src/scalarizr/handlers/mongodb.py:518-520 | leaves exactly when every entry is ready |
| `Barriers.FilledCovers` | src/scalarizr/handlers/mongodb.py:432-453 | the filled table has an entry for every other shard and no ready mark |
| `ArbiterRule.EveryRunSettled` | src/scalarizr/handlers/mongodb.py:685-697 | from a set with an odd number of voters and at most one arbiter, every run of joins and losses on one master stays in such sets |
| `ArbiterRule.HostUpTells` | src/scalarizr/handlers/mongodb.py:685-697 | replicas are left alone, an odd number of them ends without arbiter, an even number without one gets one on the master itself |
| `ArbiterRule.HostDownTells` | src/scalarizr/handlers/mongodb.py:804-823 | exactly the lost replica goes, with the arbiter on its host; an odd rest ends without arbiter, an even one has one on the master itself |
| `ArbiterRule.ReplicasTell` | src/scalarizr/handlers/mongodb.py:804-812 | after any run the replicas are those whose last event is their joining, or that were there at first |
| `ArbiterRule.HostUpMakesOdd` | src/scalarizr/handlers/mongodb.py:685-697 | the number of voters is odd after `on_HostUp` if and only if the master did not meet an even number of replicas with a positive even number of arbiters |
| `ArbiterRule.HostUpSettles` | src/scalarizr/handlers/mongodb.py:685-697 | from any member set with at most one arbiter `on_HostUp` leaves an odd number of voters |
| `ArbiterRule.HostDownSettles` | src/scalarizr/handlers/mongodb.py:804-823 | with at most one arbiter, losing a replica leaves an odd set with at most one arbiter if and only if the number of replicas was even or no third host carries the arbiter |
| `ArbiterRule.HostDownKeepsSettled` | src/scalarizr/handlers/mongodb.py:804-823 | losing a registered replica of an odd set with at most one arbiter leaves such a set, also when the lost host carried the arbiter |
| `ArbiterRule.TwoArbitersArise` | src/scalarizr/handlers/mongodb.py:814-817 | a member set from which losing a replica leaves two arbiters and an even number of voters |
| `ArbiterRule.ReplicationMaster.OnHostUp` | src/scalarizr/handlers/mongodb.py:685-697 | changes the configured members as the rule says |
| `ArbiterRule.ReplicationMaster.OnHostDown` | src/scalarizr/handlers/mongodb.py:804-823 | removes the lost host and its arbiter and then applies the rule |
| `ArbiterRule.ReplicationMaster.UnregisterArbiters` | src/scalarizr/handlers/mongodb.py:693-696 | the loop over the arbiters removes all of them and no replica |
| `ArbiterRule.ReplicationMaster.RemoveHost` | src/scalarizr/handlers/mongodb.py:806-812 | removes the replica and the arbiter of the lost host and nothing else |
| `ArbiterRule.ReplicationMaster.AddReplica` | src/scalarizr/services/mongodb.py:963-983 | a member already configured is not added again |
| `ArbiterRule.ReplicationMaster.UnregisterSlave` | src/scalarizr/services/mongodb.py:1026-1039 | removes the member with the host and port, if there is one |
| `ClusterTermination.EveryWatchGood` | src/scalarizr/handlers/mongodb.py:1756-1845 | for every order of replies, failures, heartbeats and resends: each reported progress is in 0..100 and is 100 exactly when all recorded nodes are terminated and no host is listed twice; ok is sent exactly when such a report was |
| `ClusterTermination.StatesTell` | src/scalarizr/handlers/mongodb.py:1786-1830 | in every watch a node is recorded as terminated exactly when its last reply was ok, with the rank it gave and no error, and as failed, with its error, exactly when that was an error and no heartbeat came since; otherwise it is waited for |
| `ClusterTermination.OkMeans` | src/scalarizr/handlers/mongodb.py:1838-1845 | ok is sent at a heartbeat if and only if no host is listed twice and the last reply of every listed node was ok |
| `ClusterTermination.ReportTells` | src/scalarizr/handlers/mongodb.py:1814-1836 | each heartbeat sends one report: the states its nodes have by their last replies, and the share of those whose last reply was ok; nothing is sent otherwise |
| `ClusterTermination.MessageTells` | src/scalarizr/handlers/mongodb.py:1788-1806 | one more reply changes only the state of its sender; an error keeps the rank that was known |
| `ClusterTermination.EndMeans` | src/scalarizr/handlers/mongodb.py:1780-1794 | the watch fails exactly when the deadline passes, a node that is not listed replies, or a heartbeat comes without hosts |
| `ClusterTermination.ClusterTerminateWatcher.Run` | src/scalarizr/handlers/mongodb.py:1756-1845 | the thread sends the reports and the result of the specification of a whole watch |
| `ClusterTermination.ClusterTerminateWatcher.NotifyAll` | src/scalarizr/handlers/mongodb.py:1758-1773 | every listed node is sent a message, in order, and recorded as pending, whether that got through or not |
| `ClusterTermination.ClusterTerminateWatcher.SendTerminate` | src/scalarizr/handlers/mongodb.py:1851-1860 | the node ends up pending even when the send failed |
| `ClusterTermination.ClusterTerminateWatcher.HandleMessages` | src/scalarizr/handlers/mongodb.py:1786-1812 | all replies in order; a reply from a node never recorded ends the watch |
| `ClusterTermination.ClusterTerminateWatcher.HandleMessage` | src/scalarizr/handlers/mongodb.py:1790-1810 | a reply replaces what was known about its sender, other messages change nothing |
| `ClusterTermination.ClusterTerminateWatcher.CountAndRetry` | src/scalarizr/handlers/mongodb.py:1820-1832 | counts the terminated nodes and sends every failed one, and no other, one more message |
| `ClusterTermination.ClusterTerminateWatcher.Heartbeat` | src/scalarizr/handlers/mongodb.py:1814-1843 | the report shows the states before the retries and the share of terminated nodes; done when their number is that of the listed hosts |
| `ClusterTermination.BeatIsGood` | src/scalarizr/handlers/mongodb.py:1814-1843 | a heartbeat keeps the reports truthful and sends ok only when all nodes are terminated |
| `ClusterTermination.RepeatedHostNeverOk` | src/scalarizr/handlers/mongodb.py:1751-1841 | with a pair of shard and replica set index listed twice, ok is never sent |
| `ClusterTermination.CountHosts` | src/scalarizr/handlers/mongodb.py:1834-1841 | the number of terminated nodes reaches the number of listed hosts exactly when all are terminated and none is listed twice |
| `ShardDraining.AtMostNineteen` | src/scalarizr/handlers/mongodb.py:1639-1685 | for any chunk counts, rising or falling, at most 19 are reported |
| `ShardDraining.ReportedOneMore` | src/scalarizr/handlers/mongodb.py:1675-1683 | a count is reported if and only if it is more than a twentieth of the initial count below the one reported before |
| `ShardDraining.RepliesTell` | src/scalarizr/handlers/mongodb.py:1648-1673 | the watch ends at the first reply that is complete, refused, or of an empty shard with a database other than test, and well only in the first case; all counts before are looked at |
| `ShardDraining.FirstRepliesTell` | src/scalarizr/handlers/mongodb.py:1620-1640 | how the first two replies end the watch or give the initial count |
| `ShardDraining.PercentIsFloor` | src/scalarizr/handlers/mongodb.py:1678-1678 | the percentage is the exact share, rounded down |
| `ShardDraining.MessageTells` | src/scalarizr/handlers/mongodb.py:1680-1682 | a message holds the initial count, the count left and that percentage |
| `ShardDraining.EveryMoveReported` | src/scalarizr/handlers/mongodb.py:1639-1685 | the bound is reached: below twenty chunks every single move is reported |
| `ShardDraining.PercentagesGrow` | src/scalarizr/handlers/mongodb.py:1675-1683 | a report occurs only with chunks to begin with, so the division is defined; its percentage is at most 100 and at least 5 above the one before |
| `ShardDraining.Watch` | src/scalarizr/handlers/mongodb.py:1645-1685 | the polling loop sends exactly the counts that fall by more than a twentieth, with their percentages, and ends as the replies say |
| `ShardDraining.Run` | src/scalarizr/handlers/mongodb.py:1616-1689 | the whole watcher: what is sent, how it ends, at most 19 messages, percentages in 5..100 growing by 5 or more |
| `ShardDraining.ReportsGrow` | src/scalarizr/handlers/mongodb.py:1639-1685 | the three bounds for every sequence of messages the loop can send |
| `Presets.AppliedPresetReadsBack` | src/scalarizr/service.py:115-254 | for any manifest without repeated names or paths and any values, an applied preset equals the one read back if and only if it is not empty, some manifest option is listed on reading and none disagrees: its boolean alias chains, or it is written as the empty string while its default stands for something else, or it has a section or is not supported and the entry found under its bare name stands for something else |
| `Presets.UsualPresetReadsBack` | src/scalarizr/service.py:115-254 | for section-less, supported options it does whenever no value or alias is empty, some manifest option is set to a value that is not its default, and no alias is itself aliased |
| `Presets.ApplyTwice` | src/scalarizr/service.py:193-254 | a second application of the same preset changes no setting |
| `Presets.OthersUnchanged` | src/scalarizr/service.py:199-250 | settings outside the manifest never change |
| `Presets.WrittenForEachOption` | src/scalarizr/service.py:199-250 | after applying, for every manifest option at its path, sectioned or not: the value given, or what a boolean one stands for; gone if the default or nothing is given, unless it was blank; as it was if it is given and not supported |
| `Presets.EachOptionOnTarget` | src/scalarizr/service.py:199-250 | each manifest option ends with the value decided by what it held before, whatever the other options |
| `Presets.OptionReadBack` | src/scalarizr/service.py:176-191 | option by option: when it is listed and when the two presets agree on it |
| `Presets.CurrentShows` | src/scalarizr/service.py:176-191 | the preset read back shows a present value, hides an empty one, and shows the default of an absent one |
| `Presets.CurrentTells` | src/scalarizr/service.py:167-191 | what is read back of an option: its entry without a section if not blank, nothing if blank, its default if there is none |
| `Presets.AgreementTells` | src/scalarizr/service.py:115-165 | presets agree on an option when their values stand for the same, a missing one standing for the default |
| `Presets.EqualIsSymmetric` | src/scalarizr/service.py:115-165 | comparison of presets is symmetric, and reflexive for presets with settings |
| `Presets.LaterIsTotal` | src/scalarizr/service.py:212-212 | of two different versions exactly one is later |
| `Presets.LaterIsTransitive` | src/scalarizr/service.py:212-212 | the order of versions is transitive |
| `Presets.LaterDecides` | src/scalarizr/service.py:212-212 | after a common beginning the next number decides, or the greater length |
| `Presets.ChainedAliasDoesNotReadBack` | src/scalarizr/service.py:153-162 | a preset with a chained alias that does not read back as itself |
| `Presets.BlankEntryDoesNotReadBack` | src/scalarizr/service.py:219-225 | a preset of defaults over an empty entry that does not read back as itself |
| `Presets.EmptyAliasDoesNotReadBack` | src/scalarizr/service.py:227-246 | a preset whose value is written as the empty string that does not read back as itself |
| `Presets.ApartStays` | src/scalarizr/service.py:185-201 | the entry under the bare name of a sectioned option, or of an unsupported one that is given, is read back as it was found |
| `Presets.SectionedOptionDoesNotReadBack` | src/scalarizr/service.py:185-201 | a preset of an option with a section that does not read back as itself |
| `Presets.UnsupportedOptionDoesNotReadBack` | src/scalarizr/service.py:211-215 | a preset of an option not yet supported that does not read back as itself |
| `Presets.CnfController.PresetEquals` | src/scalarizr/service.py:115-165 | the loop with its early returns decides agreement on every manifest option, both presets being non-empty |
| `Presets.CnfController.CurrentPreset` | src/scalarizr/service.py:167-191 | fills exactly the settings read back |
| `Presets.CnfController.ApplyPreset` | src/scalarizr/service.py:193-254 | the loop over the manifest leaves the configuration of the specification |
| `Presets.CnfController.ApplyOption` | src/scalarizr/service.py:200-250 | one option: skipped, removed, set or left alone |
| `WeakSets.ExecuteAll` | src/scalarizr/externals/_weakrefset.py:12-112 | in every run of add, remove, discard, pop, clear, membership, length, nested iteration and object death the weak set answers as a plain set of its live members |
| `WeakSets.RunTells` | src/scalarizr/externals/_weakrefset.py:12-112 | the outputs of a run are right if and only if each is what the operations before it tell: an object is held when it was added alive and since then neither discarded, removed, cleared, popped nor died |
| `WeakSets.StateTells` | src/scalarizr/externals/_weakrefset.py:12-112 | the live objects and the members after any run, told by its operations and outputs |
| `WeakSets.Execute` | src/scalarizr/externals/_weakrefset.py:12-112 | one operation keeps every dead reference pending and nothing pending outside iterations, and is a step of the plain set |
| `WeakSets.WeakSet.ObjectDies` | src/scalarizr/externals/_weakrefset.py:40-46 | a death removes the member; during an iteration it does not change the references held |
| `WeakSets.WeakSet.CommitRemovals` | src/scalarizr/externals/_weakrefset.py:54-58 | leaves exactly the live references and nothing pending |
| `WeakSets.WeakSet.Iterate` | src/scalarizr/externals/_weakrefset.py:60-65 | an iteration with deaths in between yields no member twice, only old members, and every member still alive, and leaves outer iterations undisturbed |
| `WeakSets.WeakSet.Exit` | src/scalarizr/externals/_weakrefset.py:28-34 | the last guard to exit commits the removals, any other changes nothing |
| `WeakSets.WeakSet.Len` | src/scalarizr/externals/_weakrefset.py:67-68 | counts the live members |
| `WeakSets.WeakSet.Has` | src/scalarizr/externals/_weakrefset.py:70-71 | membership among the live members |
| `WeakSets.WeakSet.AddItem` | src/scalarizr/externals/_weakrefset.py:79-82 | adds the member |
| `WeakSets.WeakSet.ClearAll` | src/scalarizr/externals/_weakrefset.py:84-87 | removes all members |
| `WeakSets.WeakSet.PopItem` | src/scalarizr/externals/_weakrefset.py:92-102 | skips dead references and removes and returns a live member, or fails when there is none |
| `WeakSets.WeakSet.RemoveItem` | src/scalarizr/externals/_weakrefset.py:104-107 | removes the member or fails |
| `WeakSets.WeakSet.DiscardItem` | src/scalarizr/externals/_weakrefset.py:109-112 | removes the member if it is there |
| `CpuInfo.CpuInfo` | src/scalarizr/api/system.py:271-286 | the nested loops terminate and give the cores of the unique segmentation, or fail exactly when a line has two colons or more |
| `CpuInfo.ReadCore` | src/scalarizr/api/system.py:275-285 | one core: stops before a key it has, but never at the line it started from |
| `CpuInfo.CpuInfoOf` | src/scalarizr/api/system.py:265-286 | the same from the text of the lines |
| `CpuInfo.KeyValueReads` | src/scalarizr/api/system.py:277-281 | a line with one colon gives what stands before it as the key and what stands after it as the value, stripped |
| `CpuInfo.OtherLinesRead` | src/scalarizr/api/system.py:277-279 | a line is skipped exactly when it has no colon and malformed exactly when it has two or more |
| `CpuInfo.CoreHolds` | src/scalarizr/api/system.py:280-281 | a core has the keys of its entries and no other, each with its value |
| `CpuInfo.SegmentsAreSegmentation` | src/scalarizr/api/system.py:274-285 | the cores hold every key:value line once and in order, with distinct keys in each, and a new core starts only at a key the one before has |
| `CpuInfo.SegmentationIsUnique` | src/scalarizr/api/system.py:274-285 | no other segmentation has these properties |
| `CpuInfo.CoreStep` | src/scalarizr/api/system.py:276-285 | the first core and the cores of the remaining lines make up the cores of all lines |
| `AbstractSets.HashOrderIndependent` | src/scalarizr/externals/_abcoll.py:227-257 | the hash is the same for every order of the same elements |
| `AbstractSets.EqualSetsHashAlike` | src/scalarizr/externals/_abcoll.py:227-241 | sets that compare equal hash alike |
| `AbstractSets.Hash` | src/scalarizr/externals/_abcoll.py:242-257 | lies between -MAX - 1 and MAX and is never -1 |
| `AbstractSets.ComputeHash` | src/scalarizr/externals/_abcoll.py:242-257 | the masked 64-bit loop computes that hash |
| `AbstractSets.SmallHashes` | src/scalarizr/externals/_abcoll.py:227-257 | the values for the empty set and for a set of one element whose hash is 1 |
| `AbstractSets.RoundsSwap` | src/scalarizr/externals/_abcoll.py:247-250 | two rounds of the loop may be swapped |
| `AbstractSets.LessOrEqual` | src/scalarizr/externals/_abcoll.py:150-158 | the size test and the loop decide inclusion |
| `AbstractSets.Equal` | src/scalarizr/externals/_abcoll.py:175-178 | equal sizes and inclusion decide equality |
| `AbstractSets.MutableSet.Ixor` | src/scalarizr/externals/_abcoll.py:308-319 | leaves the symmetric difference with the other set, also when that is the very set, which is cleared and not toggled while it is iterated; another set is not changed |
| `AbstractSets.MutableSet.IxorIterable` | src/scalarizr/externals/_abcoll.py:312-319 | the same for any other iterable, its repetitions counting once |
| `AbstractSets.MutableSet.Toggle` | src/scalarizr/externals/_abcoll.py:314-318 | the loop over the elements leaves the symmetric difference |
| `AbstractSets.MutableSet.Pop` | src/scalarizr/externals/_abcoll.py:280-288 | removes and returns some member, or fails on the empty set |
| `AbstractSets.MutableSet.Clear` | src/scalarizr/externals/_abcoll.py:290-296 | popping until it fails terminates and leaves nothing |
| `Counters.Combine` | src/scalarizr/externals/collections.py:534-539 | the loop over the elements of both counters gives the positive part of the pointwise operation |
| `Counters.Add` | src/scalarizr/externals/collections.py:525-539 | positive part of the pointwise sum |
| `Counters.Sub` | src/scalarizr/externals/collections.py:541-555 | positive part of the pointwise difference |
| `Counters.Or` | src/scalarizr/externals/collections.py:557-572 | positive part of the pointwise maximum |
| `Counters.And` | src/scalarizr/externals/collections.py:574-591 | positive part of the pointwise minimum, though the loop runs over the smaller counter only |
| `Counters.UnionPlusIntersection` | src/scalarizr/externals/collections.py:516-591 | union plus intersection is the sum if and only if no element is counted positive in one counter and negative in the other |
| `Counters.DifferencePlusIntersection` | src/scalarizr/externals/collections.py:516-591 | difference plus intersection is the first counter if and only if that holds positive counts only and the second no negative one |
| `Counters.OpposedCountsBreakTheLaw` | src/scalarizr/externals/collections.py:516-591 | the first law fails for the counts 3 and -5 and holds for -3 and -5 |
| `Counters.ResultAt` | src/scalarizr/externals/collections.py:520-523 | the count of every element in the value of an operator, missing elements counting zero |
| `Counters.Counter.Update` | src/scalarizr/externals/collections.py:459-466 | adds pointwise; the fast path for an empty counter gives what the loop would |
| `Counters.Counter.AddAll` | src/scalarizr/externals/collections.py:462-464 | the loop adds pointwise |
| `Counters.Counter.UpdateFrom` | src/scalarizr/externals/collections.py:468-470 | adds the multiplicity of each element of an iterable |
| `Counters.Counter.Subtract` | src/scalarizr/externals/collections.py:490-494 | subtracts pointwise, also below zero |
| `Counters.Counter.Elements` | src/scalarizr/externals/collections.py:408-428 | each element as often as its count says, none for counts below one |
| `Counters.CountElements` | src/scalarizr/externals/collections.py:408-428 | counting the elements again gives the positive part of the counter |
| `SshConfig.SetupFilePromise` | src/scalarizr/handlers/ssh_auth_keys.py:47-88 | for any sshd_config: the first line setting each required option gives it its value and nothing more, and all lines setting none are kept in order, if and only if the first line beginning with the name of each option sets that option, to the value itself if the pattern matches it, and the file ends with a newline, or names every option, or its last line is the first to name its option and does not match; a second rewriting changes nothing if and only if the condition on the end of the file holds |
| `SshConfig.RewriteFilePromise` | src/scalarizr/handlers/ssh_auth_keys.py:53-88 | the same for any required options none of whose names begins another or holds a space |
| `SshConfig.RewriteSatisfies` | src/scalarizr/handlers/ssh_auth_keys.py:66-82 | the same for the lines: the promise is kept if and only if no first line naming an option is mistaken |
| `SshConfig.FileHoldsLines` | src/scalarizr/handlers/ssh_auth_keys.py:78-86 | the file holds exactly the rewritten lines under the same condition on its text |
| `SshConfig.LosesOption` | src/scalarizr/handlers/ssh_auth_keys.py:80-86 | in every other file an appended option runs into the last line, and no line matches its pattern |
| `SshConfig.AppendedUnlessNamed` | src/scalarizr/handlers/ssh_auth_keys.py:80-82 | nothing is appended if and only if every option is named by some line |
| `SshConfig.UnterminatedFileLosesOption` | src/scalarizr/handlers/ssh_auth_keys.py:80-86 | a file without its final newline for which the promise fails |
| `SshConfig.EveryOptionCarried` | src/scalarizr/handlers/ssh_auth_keys.py:63-82 | after one rewriting the first line naming a required option matches its pattern, which has no end anchor; the first line setting it gives the very value if and only if the first line naming it did so before or did not match |
| `SshConfig.OthersKept` | src/scalarizr/handlers/ssh_auth_keys.py:66-82 | lines that do not begin with the name of a required option are kept in order and none is added |
| `SshConfig.ForeignKept` | src/scalarizr/handlers/ssh_auth_keys.py:69-78 | lines setting no required option are kept in order if and only if no option is first named by such a line |
| `SshConfig.LongerValuePasses` | src/scalarizr/handlers/ssh_auth_keys.py:63-71 | a line whose value only begins with the required one matches the pattern |
| `SshConfig.LongerValueIsKept` | src/scalarizr/handlers/ssh_auth_keys.py:63-71 | a file of one such line, for any required option, that is left with it |
| `SshConfig.OtherKeysFileIsKept` | src/scalarizr/handlers/ssh_auth_keys.py:56-71 | sshd_config left with another file of authorized keys than the one the agent writes |
| `SshConfig.LongerNameIsLost` | src/scalarizr/handlers/ssh_auth_keys.py:73-78 | a file of one line of an option whose name begins with a required one, which is overwritten |
| `SshConfig.SecondKeysFileIsLost` | src/scalarizr/handlers/ssh_auth_keys.py:73-78 | AuthorizedKeysFile2 overwritten as AuthorizedKeysFile |
| `SshConfig.RewriteTwice` | src/scalarizr/handlers/ssh_auth_keys.py:66-84 | rewriting is idempotent |
| `SshConfig.NothingToRewrite` | src/scalarizr/handlers/ssh_auth_keys.py:66-84 | lines whose first one naming each option matches its pattern are left as they are |
| `SshConfig.RequiredOptionsIndependent` | src/scalarizr/handlers/ssh_auth_keys.py:53-60 | no required option name begins another |
| `SshConfig.MatchesMeans` | src/scalarizr/handlers/ssh_auth_keys.py:64-64 | the pattern of a value matches character by character, a dot any character but a newline |
| `SshConfig.SpacesThenMeans` | src/scalarizr/handlers/ssh_auth_keys.py:64-64 | it does so after one space or more |
| `SshConfig.RewriteOne` | src/scalarizr/handlers/ssh_auth_keys.py:67-78 | the inner loop, which goes on after rewriting the line, has the effect of the one option the line names |
| `SshConfig.RewriteAll` | src/scalarizr/handlers/ssh_auth_keys.py:66-79 | the outer loop gives the rewritten lines and the options no line named |
| `SshConfig.SetupSshdConfig` | src/scalarizr/handlers/ssh_auth_keys.py:53-82 | both loops and the options appended at the end |
| `SshConfig.SetupFile` | src/scalarizr/handlers/ssh_auth_keys.py:47-88 | the file afterwards, written only when a line changed |
| `SshConfig.Check` | src/scalarizr/handlers/ssh_auth_keys.py:156-161 | repeated replacement squeezes every run of newlines to one and leaves a final newline |
| `SshConfig.SqueezedHasNoDouble` | src/scalarizr/handlers/ssh_auth_keys.py:157-158 | no two newlines are left in a row |
| `SshConfig.SqueezeKeepsLines` | src/scalarizr/handlers/ssh_auth_keys.py:156-161 | squeezing keeps every line that is not blank, in order |
| `SshConfig.ReplacingSqueezesAlike` | src/scalarizr/handlers/ssh_auth_keys.py:158-158 | a round of non-overlapping replacements does not change what squeezing gives |
| `IniFiles.PrintParse` | src/scalarizr/config.py:636-657 | printing a configuration of good parts and parsing the lines gives it back, values without the spaces around them, None as the word None |
| `IniFiles.PrintedReadsBack` | src/scalarizr/config.py:636-692 | any configuration written to a file reads back as it is if and only if its names, keys and values are good and every line but the last has its newline |
| `IniFiles.FileRoundTrip` | src/scalarizr/config.py:669-692 | for any text that parses: printing and parsing again gives the same configuration if and only if no section header is blank |
| `IniFiles.BlankHeaderIsLost` | src/scalarizr/config.py:678-681 | a file with a blank header, its section, and the comment it becomes |
| `IniFiles.PrintsLineByLine` | src/scalarizr/config.py:636-691 | a parsed configuration prints one line for each line of the file |
| `IniFiles.PrintedEnd` | src/scalarizr/config.py:674-691 | the printed lines have their newlines, except the last when the file ends with a comment that lacks it |
| `IniFiles.LineMeansItself` | src/scalarizr/config.py:678-691 | the meaning of any line prints as a line with the same meaning, blank section headers apart |
| `IniFiles.OptionReads` | src/scalarizr/config.py:636-637 | a printed option is classified as that option, its value stripped |
| `IniFiles.FileOptionReads` | src/scalarizr/config.py:671-685 | an option of a file: its name, spaces or tabs, the first = or :, and the rest stripped as its value |
| `IniFiles.FileSectionReads` | src/scalarizr/config.py:678-681 | a header of a file: what stands between the brackets, stripped, whatever follows |
| `IniFiles.FileCommentReads` | src/scalarizr/config.py:683-691 | an empty line, one that starts with a space or a separator, or one without a separator is a comment |
| `IniFiles.PrintedLooks` | src/scalarizr/config.py:636-657 | the very lines written for a comment, a section and an option |
| `IniFiles.HeaderReads` | src/scalarizr/config.py:644-645 | a printed header is classified as that section |
| `IniUpdates.UpdateReadsBack` | src/scalarizr/config.py:669-748 | for any file that parses, any sections known to the parser in memory and any options given: a file is written and parses to exactly the updated configuration if and only if no section new to that parser is called DEFAULT in any case, no header is blank, names, keys and values given are good (no spaces at the ends of a value, no newline), and the file ends with a newline or no comment or has nothing appended after its end |
| `IniUpdates.UpdateTwice` | src/scalarizr/config.py:699-748 | giving the same options again leaves the written text as it is if and only if no option that was new to the file is given None |
| `IniUpdates.StaysWritable` | src/scalarizr/config.py:699-748 | a text that was written may be updated again with the same options |
| `IniUpdates.RegisteredUnlessRefused` | src/scalarizr/config.py:715-716 | a section is refused if and only if some given one is called DEFAULT, in any case, and new to the parser in memory; otherwise that gains exactly the names given |
| `IniUpdates.DefaultIsRefused` | src/scalarizr/config.py:715-716 | a given section for which nothing is written |
| `IniUpdates.GivenReadsItself` | src/scalarizr/config.py:699-748 | with good names and a safe end, all given options read back as their very values if and only if no value has spaces at its ends or a newline |
| `IniUpdates.GivenReadsBack` | src/scalarizr/config.py:669-748 | from the text of the file to the text written: a given value reads without the spaces around it, None as the empty string when the file did not have the option and as the word None when it did |
| `IniUpdates.OthersReadAsBefore` | src/scalarizr/config.py:669-748 | every other option reads in the written text as in the text of the file |
| `IniUpdates.ReadIsExact` | src/scalarizr/config.py:683-685 | in no file does an option read as a value with spaces at its ends or a newline |
| `IniUpdates.UpdatedTextParses` | src/scalarizr/config.py:674-748 | the text written parses to the updated configuration, values stripped |
| `IniUpdates.UpdatedEnd` | src/scalarizr/config.py:699-748 | the updated lines are whole if and only if the file ends with a newline or no comment, or nothing is appended after its end |
| `IniUpdates.UpdatedIsGood` | src/scalarizr/config.py:699-739 | the updated configuration is good if and only if the file has no blank header and what is given is good |
| `IniUpdates.OpenEndSwallowsOption` | src/scalarizr/config.py:686-744 | a file ending in a comment without its newline, from which the given option is lost |
| `IniUpdates.CommentSwallows` | src/scalarizr/config.py:686-744 | the same for every such comment |
| `IniUpdates.PaddedValueIsStripped` | src/scalarizr/config.py:637-685 | a given value with a space that reads without it |
| `IniUpdates.NewlineValueAddsOption` | src/scalarizr/config.py:637-685 | a given value with a newline whose rest becomes another option |
| `IniUpdates.UpdateKeeps` | src/scalarizr/config.py:699-714 | sections keep their places, only a given one that is the first of its name is touched, new ones come last and are given |
| `IniUpdates.OptionsKeep` | src/scalarizr/config.py:718-738 | comments and entries keep their places and text, only values of given entries change, new entries come last and are given |
| `IniUpdates.SetOptionReads` | src/scalarizr/config.py:720-738 | setting one option changes what it reads as and nothing else |
| `IniUpdates.GivenSectionUpdated` | src/scalarizr/config.py:699-739 | a given section receives its options, whatever other sections are given |
| `IniUpdates.IniUpdater.Parse` | src/scalarizr/config.py:674-691 | the loop over the lines builds the parsed configuration, or fails at an option before the first section |
| `IniUpdates.IniUpdater.ParseLine` | src/scalarizr/config.py:678-691 | one line appended as a section, an option or a comment |
| `IniUpdates.IniUpdater.UpdateWith` | src/scalarizr/config.py:699-739 | the loop over the given sections leaves the updated configuration and registers their names, or stops at the first that is refused |
| `IniUpdates.IniUpdater.UpdateSection` | src/scalarizr/config.py:701-738 | the first section with the name, or a new one at the end, receives the options in order, unless its name is refused |
| `IniUpdates.IniUpdater.AddSection` | src/scalarizr/config.py:715-716 | a name new to the parser in memory is added, or refused when it is DEFAULT in any case |
| `IniUpdates.IniUpdater.Set` | src/scalarizr/config.py:720-738 | the first entry with the key is overwritten, or a new one appended |
| `IniUpdates.IniUpdater.Print` | src/scalarizr/config.py:653-657 | the accumulated string is the printed configuration |
| `IniUpdates.IniUpdater.PrintSection` | src/scalarizr/config.py:644-648 | the accumulated string is the header and the printed items |
| `IniUpdates.UpdateIni` | src/scalarizr/config.py:663-748 | the text written for a file, or failure when the file does not parse or a section is refused; the section names then known |

## Left out

General

- Message transport, `P2pMessageStore`, QueryEnv HTTP, init scripts, subprocesses, file permissions and logging: they appear only as events, parameters or the text of a file.
- The promotion handlers of MySQL, PostgreSQL and Redis, apache, rebundle, deploy, script execution, storage volumes and iptables: mostly foreign effects in a fixed order.
- Threads: the steps of a timer, of a message handler and of a garbage-collected object are taken as atomic.
- `namedtuple`, `most_common`, `__repr__` and pickling: generated code and external libraries.
- Iteration over a Python dict or set: the order is arbitrary, so loops over one pick elements in any order, and where a list order shows in the result (new ini options, appended sshd options) it is the order of a given sequence.

Data structures

- `ABCMeta.__subclasshook__` other than the default, old-style classes, classes that are not instances of `ABCMeta`, abstract method names, the type test of `register`, and garbage collection of classes: hooks and weak references change the class graph without raising the counter. The weak sets of a class are sets here, and the order of `__subclasses__` and of the registry plays no part.
- Class objects are referred to by the order of their creation, so `AbstractBaseClasses.Execute` has an answer for a name that does not exist, which the source has no counterpart for.
- `OrderedDict` iterators interleaved with changes, comparison with a plain dict, views, `copy` and `fromkeys`. `update` takes the pairs in the order in which its argument yields them; its tests on the kind of the argument are not modelled.
- Members of a `WeakSet` are compared by identity, and a dead object never comes back; `WeakSet.update`, `_apply` and the set operations built on them, whose references call back into another set, are not modelled.
- `Counter.subtract` and `update` with keyword arguments, and `subtract` of a plain iterable, which repeat the loops shown.
- `Set._hash` is modelled for a 64-bit `sys.maxint`; the `NotImplemented` answers for other types and the derived operators of `Set` are not modelled. A `MutableSet` here is a set of elements with `discard` and `add` of its own.

Protocols

- OnEachExecutors.Play: does not feed responses of a node after its timeout or with an unknown status to the leader, because they start a second outstanding request; what they do to the partition is stated by `HandleResponse` for every response.
- OnEachExecutors.OnEachExecutor.RequestNextNode: terminates for any number of nodes, but every failed send nests two calls deeper, and the limit that Python sets on the depth of calls is not modelled; with many nodes whose sends all fail at once the code may reach it before the time frame closes.
- OnEachExecutors: a message that reports results carries the whole context; its texts, the request bodies and the rows prepared for nodes never asked are not modelled. The factor 1.2 is exact, and the resend interval is positive, as by default.
- Barriers: that nodes leave in every run is not claimed, since it is false (`UnlistedIsLeftBehind`, `OwnReplicaBlocks`); `CanLeave` and `AllCanLeave` state when a node can leave and that all can. The actions of one pass of the loop may interleave in any order, so the model has more runs than the code; its restart of mongod and the wait for the configuration server are not modelled.
- ArbiterRule: the branches of hosts that are not the master, starting and stopping the arbiter process, and reconfigurations that the server refuses are not modelled. Changing the configuration takes effect at once.
- ClusterTermination and ShardDraining: percentages are computed with exact integers, not floats; clocks, sleeps and the router are given as rounds and replies.

Configuration

- `Configuration` of metaconf is a map from path to value, read and written as a whole; the manifest is given, its download and merge and the hooks around `apply_preset` are not modelled. The values that `get_system_variables` finds are the entries without a section.
- Presets: the names of manifest options are the section names of an ini file and so distinct; their paths are taken to be distinct as well.
- IniFiles and IniUpdates: the regular expressions of `RawConfigParser` are a small line grammar (a bracketed non-empty header at the start of a line; an option name that starts with no space, up to the first separator). Of the in-memory `rawini` copy, which is updated alongside, only the names of its sections are modelled, not the values set in it. An option that occurs twice is read as its first occurrence, the one that an update changes.
- SshConfig: names of options hold no space, as the required ones do not. The regular expression of an option is a predicate in which a dot stands for any character but a newline. How sshd itself reads the file (names in any case, Match blocks, quoted values) is not modelled; adding and removing keys is not modelled.
- CpuInfo: reading the file is not modelled; the text is given as lines.
