// The watcher that reports how far the draining of a shard has come
// (src/scalarizr/handlers/mongodb.py, DrainingWatcher).
module ShardDraining {
  import opened Arithmetic
  import opened Sequences

  // A reply of the router to removeShard; unpartitioned are the databases
  // still on the shard that are not sharded.
  datatype Reply =
    | Refused
    | Completed
    | Ongoing(chunks: nat, unpartitioned: set<string>)
    | OtherState

  datatype Progress = Progress(totalChunks: nat, chunksLeft: nat, percent: int)

  datatype Result = Draining | Drained | Error

  // A refusal carries no state to go by, and a database other than test keeps
  // an empty shard from being removed.
  predicate Stuck(r: Reply) {
    r.Refused? || (r.Ongoing? && r.chunks == 0 && r.unpartitioned - {"test"} != {})
  }

  // The chunk counts that reach the progress arithmetic.
  function Counts(replies: seq<Reply>): seq<nat> {
    if replies == [] || replies[0].Completed? || Stuck(replies[0]) then []
    else (if replies[0].Ongoing? then [replies[0].chunks] else []) + Counts(replies[1..])
  }

  function FinalResult(replies: seq<Reply>): Result {
    if replies == [] then Draining
    else if replies[0].Completed? then Drained
    else if Stuck(replies[0]) then Error
    else FinalResult(replies[1..])
  }

  // The counts that are reported, when last is the count reported before.
  function Reported(init: nat, last: nat, counts: seq<nat>): seq<nat> {
    if counts == [] then []
    else if last - counts[0] > init / 20 then [counts[0]] + Reported(init, counts[0], counts[1..])
    else Reported(init, last, counts[1..])
  }

  function Percent(init: nat, left: nat): int
    requires init > 0
  {
    (init - left) * 100 / init
  }

  // The percentage is the exact share, rounded down.
  lemma PercentIsFloor(init: nat, left: nat)
    requires 0 < init && left <= init
    ensures 0 <= Percent(init, left)
    ensures Percent(init, left) * init <= (init - left) * 100 < (Percent(init, left) + 1) * init
  {
    var p := Percent(init, left);
    QuotientAtLeast((init - left) * 100, init, 0);
    QuotientAtLeast((init - left) * 100, init, p);
    QuotientAtLeast((init - left) * 100, init, p + 1);
  }

  // A count is reported exactly when it is more than a twentieth of the
  // initial count below the one reported before.
  lemma {:induction false} ReportedOneMore(init: nat, last: nat, counts: seq<nat>, count: nat)
    ensures var reported := Reported(init, last, counts);
            var before := if reported == [] then last else reported[|reported| - 1];
            var more := if before - count > init / 20 then [count] else [];
            Reported(init, last, counts + [count]) == reported + more
    decreases |counts|
  {
    if counts == [] {
      assert [] + [count] == [count] && [count][1..] == [];
    } else {
      var rest := counts[1..];
      assert (counts + [count])[1..] == rest + [count] && (counts + [count])[0] == counts[0];
      if last - counts[0] > init / 20 {
        ReportedOneMore(init, counts[0], rest, count);
        var later := Reported(init, counts[0], rest);
        assert later != [] ==> ([counts[0]] + later)[|later|] == later[|later| - 1];
        assert [counts[0]] + (later + [count]) == [counts[0]] + later + [count];
      } else {
        ReportedOneMore(init, last, rest, count);
      }
    }
  }

  function ChunkCounts(replies: seq<Reply>): seq<nat> {
    if replies == [] then []
    else (if replies[0].Ongoing? then [replies[0].chunks] else []) + ChunkCounts(replies[1..])
  }

  // A reply that ends the watch.
  predicate Ends(r: Reply) {
    r.Completed? || r.Refused? || (r.Ongoing? && r.chunks == 0 && exists db :: db in r.unpartitioned && db != "test")
  }

  lemma StuckEnds(r: Reply)
    ensures Ends(r) <==> r.Completed? || Stuck(r)
  {
    if r.Ongoing? {
      if db :| db in r.unpartitioned && db != "test" {
        assert db in r.unpartitioned - {"test"};
      }
      if db :| db in r.unpartitioned - {"test"} {
        assert db in r.unpartitioned && db != "test";
      }
    }
  }

  // The watch ends at the first reply that ends it, well if that says that the
  // draining is complete; until then every chunk count is looked at.
  lemma {:induction false} RepliesTell(replies: seq<Reply>, i: nat)
    requires i <= |replies| && (forall j :: 0 <= j < i ==> !Ends(replies[j])) && (i < |replies| ==> Ends(replies[i]))
    ensures FinalResult(replies)
         == if i == |replies| then Draining else if replies[i].Completed? then Drained else Error
    ensures Counts(replies) == ChunkCounts(replies[..i])
    decreases |replies|
  {
    if replies != [] {
      StuckEnds(replies[0]);
      if i > 0 {
        RepliesTell(replies[1..], i - 1);
        assert replies[..i][0] == replies[0] && replies[..i][1..] == replies[1..][..i - 1];
      }
    }
  }

  // For any counts, rising or falling, no more than 19 are reported.
  lemma {:induction false} AtMostNineteen(init: nat, last: nat, counts: seq<nat>)
    requires last <= init
    ensures |Reported(init, last, counts)| * (init / 20 + 1) <= last
    ensures |Reported(init, last, counts)| <= 19
  {
    var step := init / 20 + 1;
    if counts != [] {
      var rest := counts[1..];
      if last - counts[0] > init / 20 {
        AtMostNineteen(init, counts[0], rest);
        var n := |Reported(init, counts[0], rest)|;
        assert (n + 1) * step == n * step + step;
      } else {
        AtMostNineteen(init, last, rest);
      }
    }
    ProductOrder(20, |Reported(init, last, counts)|, step);
  }

  function Countdown(n: nat): seq<nat> {
    if n == 0 then [] else [n - 1] + Countdown(n - 1)
  }

  // Below twenty chunks every single move is reported: nineteen reports occur.
  lemma {:induction false} EveryMoveReported(init: nat, n: nat)
    requires n <= init < 20
    ensures |Reported(init, n, Countdown(n))| == n
  {
    if n > 0 {
      EveryMoveReported(init, n - 1);
      assert Countdown(n)[1..] == Countdown(n - 1);
    }
  }

  lemma OneReport(init: nat, last: nat, left: nat)
    requires last <= init && last - left > init / 20
    ensures init > 0 && Percent(init, last) + 5 <= Percent(init, left) <= 100
  {
    var p := Percent(init, last);
    QuotientAtLeast((init - last) * 100, init, p);
    assert (p + 5) * init == p * init + 5 * init;
    QuotientAtLeast((init - left) * 100, init, p + 5);
    QuotientAtLeast((init - left) * 100, init, 101);
  }

  // Each report is below the one before, so nothing is reported of an empty
  // shard, and the percentage is defined, at most 100, and grows by 5 or more.
  lemma {:induction false} PercentagesGrow(init: nat, last: nat, counts: seq<nat>, k: nat)
    requires last <= init && k < |Reported(init, last, counts)|
    ensures init > 0
    ensures var reported := Reported(init, last, counts);
            var before := if k == 0 then last else reported[k - 1];
            && reported[k] < before <= init
            && Percent(init, before) + 5 <= Percent(init, reported[k]) <= 100
  {
    var rest := counts[1..];
    if last - counts[0] > init / 20 {
      if k == 0 {
        OneReport(init, last, counts[0]);
      } else {
        PercentagesGrow(init, counts[0], rest, k - 1);
      }
    } else {
      PercentagesGrow(init, last, rest, k);
    }
  }

  // Everything sent before the run ends, and how it ends.
  ghost function Expected(replies: seq<Reply>): (seq<nat>, Result) {
    if replies == [] then ([], Draining)
    else if replies[0].Refused? then ([], Error)
    else if replies[0].Completed? then ([], Drained)
    else if |replies| == 1 then ([], Draining)
    else if replies[1].Completed? then ([], Drained)
    else if !replies[1].Ongoing? then ([], Error)
    else
      var init := replies[1].chunks;
      (Reported(init, init, Counts(replies[2..])), FinalResult(replies[2..]))
  }

  // The first reply starts the draining and the second gives the number of
  // chunks to begin with.
  lemma FirstRepliesTell(replies: seq<Reply>)
    ensures replies == [] ==> Expected(replies) == ([], Draining)
    ensures |replies| == 1 ==>
      Expected(replies) == ([], match replies[0] case Refused => Error case Completed => Drained case _ => Draining)
    ensures |replies| > 1 ==>
      match replies[0]
      case Refused => Expected(replies) == ([], Error)
      case Completed => Expected(replies) == ([], Drained)
      case _ =>
        match replies[1]
        case Completed => Expected(replies) == ([], Drained)
        case Ongoing(init, _) =>
          Expected(replies) == (Reported(init, init, Counts(replies[2..])), FinalResult(replies[2..]))
        case _ => Expected(replies) == ([], Error)
  {
  }

  // Each count is sent with its percentage of the initial count.
  ghost predicate Sends(init: nat, counts: seq<nat>, sent: seq<Progress>) {
    && |sent| == |counts|
    && forall k :: 0 <= k < |sent| ==> init > 0 && sent[k] == Progress(init, counts[k], Percent(init, counts[k]))
  }

  // What a message says: the number of chunks to begin with, those left, and
  // the share that has gone, rounded down.
  lemma MessageTells(init: nat, counts: seq<nat>, sent: seq<Progress>, k: nat)
    requires Sends(init, counts, sent) && k < |sent| && counts[k] <= init
    ensures k < |counts| && sent[k].totalChunks == init && sent[k].chunksLeft == counts[k]
    ensures sent[k].percent * init <= (init - counts[k]) * 100 < (sent[k].percent + 1) * init
  {
    PercentIsFloor(init, counts[k]);
  }

  // With i replies seen and last the count reported before, what is left to
  // report are the counts of the other replies.
  ghost predicate Polled(init: nat, replies: seq<Reply>, i: nat, last: nat, reported: seq<nat>) {
    && i <= |replies|
    && Reported(init, init, Counts(replies)) == reported + Reported(init, last, Counts(replies[i..]))
    && FinalResult(replies) == FinalResult(replies[i..])
  }

  lemma ReplySeen(init: nat, replies: seq<Reply>, i: nat, last: nat, reported: seq<nat>)
    requires i < |replies| && Polled(init, replies, i, last, reported)
    ensures var r := replies[i];
      if r.Completed? || Stuck(r) then
        && Reported(init, init, Counts(replies)) == reported
        && FinalResult(replies) == if r.Completed? then Drained else Error
      else if r.Ongoing? && last - r.chunks > init / 20 then
        Polled(init, replies, i + 1, r.chunks, reported + [r.chunks])
      else Polled(init, replies, i + 1, last, reported)
  {
    var r, rest := replies[i], Counts(replies[i + 1..]);
    assert replies[i..][0] == r && replies[i..][1..] == replies[i + 1..];
    if r.Completed? || Stuck(r) {
      assert Reported(init, last, []) == [] && reported + [] == reported;
    } else if r.Ongoing? {
      assert Counts(replies[i..]) == [r.chunks] + rest && ([r.chunks] + rest)[1..] == rest;
      ConcatAssociative(reported, [r.chunks], Reported(init, r.chunks, rest));
    } else {
      assert Counts(replies[i..]) == rest;
    }
  }

  // The loop that polls the router.
  method Watch(init: nat, replies: seq<Reply>) returns (sent: seq<Progress>, result: Result)
    ensures Sends(init, Reported(init, init, Counts(replies)), sent) && result == FinalResult(replies)
  {
    sent := [];
    ghost var reported := [];
    var lastNotified: nat := init;
    var triggerStep := init / 20;
    var i := 0;
    assert replies[0..] == replies;
    while i < |replies|
      invariant lastNotified <= init && Sends(init, reported, sent)
      invariant Polled(init, replies, i, lastNotified, reported)
    {
      ReplySeen(init, replies, i, lastNotified, reported);
      match replies[i] {
        case Completed => return sent, Drained;
        case Refused => return sent, Error;
        case Ongoing(chunksLeft, unpartitioned) =>
          if chunksLeft == 0 && unpartitioned - {"test"} != {} {
            return sent, Error;
          }
          var progress := lastNotified - chunksLeft;
          if progress > triggerStep {
            sent := sent + [Progress(init, chunksLeft, (init - chunksLeft) * 100 / init)];
            reported := reported + [chunksLeft];
            lastNotified := chunksLeft;
          }
        case _ =>
      }
      i := i + 1;
    }
    assert replies[|replies|..] == [] && reported + [] == reported;
    result := Draining;
  }

  lemma ReportsGrow(init: nat, counts: seq<nat>, sent: seq<Progress>)
    requires Sends(init, Reported(init, init, counts), sent)
    ensures |sent| <= 19
    ensures forall k :: 0 <= k < |sent| ==> 5 <= sent[k].percent <= 100
    ensures forall k :: 0 < k < |sent| ==> sent[k - 1].percent + 5 <= sent[k].percent
  {
    AtMostNineteen(init, init, counts);
    forall k | 0 <= k < |sent|
      ensures 5 <= sent[k].percent <= 100
      ensures 0 < k ==> sent[k - 1].percent + 5 <= sent[k].percent
    {
      PercentagesGrow(init, init, counts, k);
      var left := if k == 0 then init else sent[k - 1].chunksLeft;
      QuotientAtLeast((init - left) * 100, init, 0);
    }
  }

  // The watcher, fed with any replies: what it sends is what Expected says,
  // and its division never fails.
  method Run(replies: seq<Reply>) returns (sent: seq<Progress>, result: Result)
    ensures |sent| == |Expected(replies).0| <= 19 && result == Expected(replies).1
    ensures |replies| > 1 && replies[1].Ongoing? ==> Sends(replies[1].chunks, Expected(replies).0, sent)
    ensures forall k :: 0 <= k < |sent| ==> 5 <= sent[k].percent <= 100
    ensures forall k :: 0 < k < |sent| ==> sent[k - 1].percent + 5 <= sent[k].percent
  {
    sent := [];
    if replies == [] {
      return sent, Draining;
    }
    if replies[0].Refused? {
      return sent, Error;
    }
    if replies[0].Completed? {
      return sent, Drained;
    }
    if |replies| == 1 {
      return sent, Draining;
    }
    if replies[1].Completed? {
      return sent, Drained;
    }
    if !replies[1].Ongoing? {
      return sent, Error;
    }
    sent, result := Watch(replies[1].chunks, replies[2..]);
    ReportsGrow(replies[1].chunks, Counts(replies[2..]), sent);
  }
}
