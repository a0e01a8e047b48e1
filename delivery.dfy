/**
 * `deliver_clone`: the cloned entry list is posted to the destination in
 * transaction batches of 15, front first. The destination is an oracle: the
 * k-th post gets the k-th reply of a finite script.
 */
module Delivery {
  import opened Json

  const BatchSize := 15

  /** The status one entry of a reply carries, when it carries one. */
  datatype ItemReply = NoStatus | Status(code: int)

  /** What the destination answers to one post: the HTTP status and the per-entry statuses. */
  datatype Reply = Reply(status: int, items: seq<ItemReply>)

  /**
   * The loop state: the entries still queued, every batch posted so far, and
   * the batches the destination accepted (the batch number is their count).
   */
  datatype Progress = Progress(queue: seq<Value>, posted: seq<seq<Value>>, accepted: seq<seq<Value>>)

  /** `queue[:15]` */
  function Take(queue: seq<Value>): (r: seq<Value>)
    ensures |r| == if |queue| < BatchSize then |queue| else BatchSize
    ensures r <= queue
  {
    if |queue| <= BatchSize then queue else queue[..BatchSize]
  }

  /** `del queue[:15]` */
  function Drop(queue: seq<Value>): (r: seq<Value>)
    ensures Take(queue) + r == queue
  {
    if |queue| <= BatchSize then [] else queue[BatchSize..]
  }

  /** The batches one after the other. */
  function Flatten(batches: seq<seq<Value>>): seq<Value>
  {
    if batches == [] then [] else Flatten(batches[..|batches| - 1]) + batches[|batches| - 1]
  }

  lemma FlattenSnoc(batches: seq<seq<Value>>, b: seq<Value>)
    ensures Flatten(batches + [b]) == Flatten(batches) + b
  {
    assert (batches + [b])[..|batches|] == batches;
  }

  /** A reply that accepts the batch: HTTP 200 and no entry throttled. */
  predicate Accepts(r: Reply)
  {
    r.status == 200 && Status(429) !in r.items
  }

  // ------------------------------------------------------------------ the loop as written

  /**
   * One pass of the loop body as written. A throttled entry raises: the
   * diagnostics decode to a dict, and reading `_msBeforeNext` as an attribute
   * of a dict raises AttributeError. Otherwise HTTP 200 drops the batch from
   * the queue; any other status puts the batch back in front of the queue,
   * which still holds it.
   */
  function StepAsWritten(p: Progress, r: Reply): (s: Result<Progress>)
    requires |p.queue| > 0
    ensures Status(429) in r.items <==> s == Err(AttributeError)
    ensures s.Ok? ==> s.value.posted == p.posted + [Take(p.queue)]
    ensures s.Ok? && r.status == 200 ==> s.value.queue == Drop(p.queue) && s.value.accepted == p.accepted + [Take(p.queue)]
    ensures s.Ok? && r.status != 200 ==> s.value.queue == Take(p.queue) + p.queue && s.value.accepted == p.accepted
  {
    var batch := Take(p.queue);
    if Status(429) in r.items then Err(AttributeError)
    else if r.status == 200 then Ok(Progress(Drop(p.queue), p.posted + [batch], p.accepted + [batch]))
    else Ok(Progress(batch + p.queue, p.posted + [batch], p.accepted))
  }

  /** The loop as written, fed the first replies of the script; once the queue is empty the loop has ended. */
  function RunAsWritten(entries: seq<Value>, replies: seq<Reply>): (r: Result<Progress>)
    ensures r.Ok? ==> |r.value.posted| <= |replies| && |r.value.accepted| <= |r.value.posted|
    ensures r.Ok? ==> forall i :: 0 <= i < |r.value.posted| ==> 0 < |r.value.posted[i]| <= BatchSize
  {
    if replies == [] then Ok(Progress(entries, [], []))
    else
      match RunAsWritten(entries, replies[..|replies| - 1])
      case Err(f) => Err(f)
      case Ok(p) => if |p.queue| == 0 then Ok(p) else StepAsWritten(p, replies[|replies| - 1])
  }

  /** `divmod(n, m)`: the tuple of quotient and remainder. */
  function DivMod(n: nat, m: nat): Value
    requires m > 0
  {
    Arr([Int(n / m), Int(n % m)])
  }

  /** The number of batches the log line announces: `n // 15 + bool(divmod(n, 15))`. */
  function LoggedBatchCount(n: nat): (r: nat)
    ensures r == n / BatchSize + 1
  {
    n / BatchSize + if Truthy(DivMod(n, BatchSize)) then 1 else 0
  }

  lemma {:induction false} AsWrittenErrorSticks(entries: seq<Value>, replies: seq<Reply>, k: nat)
    requires k <= |replies| && RunAsWritten(entries, replies[..k]).Err?
    ensures RunAsWritten(entries, replies) == RunAsWritten(entries, replies[..k])
    decreases |replies| - k
  {
    if k < |replies| {
      assert replies[..k + 1][..k] == replies[..k];
      AsWrittenErrorSticks(entries, replies, k + 1);
    } else {
      assert replies[..k] == replies;
    }
  }

  lemma {:induction false} AsWrittenDoneSticks(entries: seq<Value>, replies: seq<Reply>, k: nat)
    requires k <= |replies| && RunAsWritten(entries, replies[..k]).Ok? && RunAsWritten(entries, replies[..k]).value.queue == []
    ensures RunAsWritten(entries, replies) == RunAsWritten(entries, replies[..k])
    decreases |replies| - k
  {
    if k < |replies| {
      assert replies[..k + 1][..k] == replies[..k];
      AsWrittenDoneSticks(entries, replies, k + 1);
    } else {
      assert replies[..k] == replies;
    }
  }

  /**
   * The delivery loop: while entries are queued, post the first 15 and act
   * on the reply. The loop ends when the queue is empty, or when the script
   * of replies runs out (the source would go on posting).
   */
  method DeliverClone(entries: seq<Value>, replies: seq<Reply>) returns (r: Result<Progress>, announced: nat)
    ensures r == RunAsWritten(entries, replies)
    ensures announced == LoggedBatchCount(|entries|)
  {
    announced := LoggedBatchCount(|entries|);
    var queue := entries;
    var posted: seq<seq<Value>> := [];
    var accepted: seq<seq<Value>> := [];
    var k := 0;
    while |queue| > 0 && k < |replies|
      invariant k <= |replies|
      invariant RunAsWritten(entries, replies[..k]) == Ok(Progress(queue, posted, accepted))
      decreases |replies| - k
    {
      assert replies[..k + 1][..k] == replies[..k];
      var batch := if |queue| <= BatchSize then queue else queue[..BatchSize];
      var reply := replies[k];
      if Status(429) in reply.items {
        AsWrittenErrorSticks(entries, replies, k + 1);
        return Err(AttributeError), announced;
      }
      posted := posted + [batch];
      if reply.status == 200 {
        queue := if |queue| <= BatchSize then [] else queue[BatchSize..];
        accepted := accepted + [batch];
      } else {
        queue := batch + queue;
      }
      k := k + 1;
    }
    if k < |replies| {
      AsWrittenDoneSticks(entries, replies, k);
    } else {
      assert replies[..k] == replies;
    }
    return Ok(Progress(queue, posted, accepted)), announced;
  }

  // ------------------------------------------------------------------ the loop as intended

  /**
   * One pass of the loop body as intended: a throttled entry makes the whole
   * batch a retry, like any failure, and a retry posts the same batch again
   * without queueing it twice.
   */
  function Step(p: Progress, r: Reply): (s: Progress)
    requires |p.queue| > 0
    ensures s.posted == p.posted + [Take(p.queue)]
    ensures Accepts(r) ==> s.queue == Drop(p.queue) && s.accepted == p.accepted + [Take(p.queue)]
    ensures !Accepts(r) ==> s.queue == p.queue && s.accepted == p.accepted
  {
    var batch := Take(p.queue);
    if Accepts(r) then Progress(Drop(p.queue), p.posted + [batch], p.accepted + [batch])
    else Progress(p.queue, p.posted + [batch], p.accepted)
  }

  /**
   * The loop as intended. Whatever the replies, the accepted batches followed
   * by the queue are the original entries: no entry is delivered twice, none
   * is lost, and the order is kept; every batch posted holds 1 to 15 entries.
   */
  function Run(entries: seq<Value>, replies: seq<Reply>): (r: Progress)
    ensures Flatten(r.accepted) + r.queue == entries
    ensures |r.posted| <= |replies| && |r.accepted| <= |r.posted|
    ensures forall i :: 0 <= i < |r.posted| ==> 0 < |r.posted[i]| <= BatchSize
  {
    if replies == [] then Progress(entries, [], [])
    else
      var p := Run(entries, replies[..|replies| - 1]);
      if |p.queue| == 0 then p
      else
        var s := Step(p, replies[|replies| - 1]);
        FlattenSnoc(p.accepted, Take(p.queue));
        s
  }

  /** The number of batches needed: the ceiling of `n / 15`. */
  function BatchCount(n: nat): (r: nat)
    ensures r * BatchSize >= n && (r == 0 || (r - 1) * BatchSize < n)
  {
    (n + BatchSize - 1) / BatchSize
  }

  // ------------------------------------------------------------------ properties

  /** Every reply in the script accepts its batch. */
  predicate AllAccept(replies: seq<Reply>)
  {
    forall k :: 0 <= k < |replies| ==> Accepts(replies[k])
  }

  /** Batch `i` of a list cut into batches of 15. */
  function Slice(entries: seq<Value>, i: nat): seq<Value>
    requires i * BatchSize <= |entries|
  {
    var hi := if (i + 1) * BatchSize <= |entries| then (i + 1) * BatchSize else |entries|;
    entries[i * BatchSize..hi]
  }

  /**
   * The state after `k` accepted posts and no failure: the posts are the
   * first `k` batches of 15 in order, and the queue is what follows them.
   */
  ghost predicate CutSoFar(entries: seq<Value>, p: Progress)
  {
    var k := |p.accepted|;
    && p.posted == p.accepted
    && k * BatchSize <= |entries| + BatchSize - 1
    && (forall i :: 0 <= i < k ==> i * BatchSize < |entries| && p.accepted[i] == Slice(entries, i))
    && (k * BatchSize <= |entries| ==> p.queue == entries[k * BatchSize..])
    && (k * BatchSize > |entries| ==> p.queue == [])
  }

  /** An accepted post moves on to the next batch of 15. */
  lemma CutStep(entries: seq<Value>, p: Progress, r: Reply)
    requires CutSoFar(entries, p) && |p.queue| > 0 && Accepts(r)
    ensures CutSoFar(entries, Step(p, r))
  {
    var k := |p.accepted|;
    assert k * BatchSize < |entries|;
    assert Take(p.queue) == Slice(entries, k);
    var s := Step(p, r);
    if (k + 1) * BatchSize <= |entries| {
      assert Drop(p.queue) == entries[(k + 1) * BatchSize..];
    }
  }

  /** When the destination accepts every post, the loop cuts the entries into batches of 15, front first. */
  lemma {:induction false} AcceptedPrefix(entries: seq<Value>, replies: seq<Reply>)
    requires AllAccept(replies)
    ensures CutSoFar(entries, Run(entries, replies))
    ensures Run(entries, replies).queue != [] ==> |Run(entries, replies).accepted| == |replies|
  {
    if replies != [] {
      var prefix := replies[..|replies| - 1];
      assert AllAccept(prefix) by {
        forall k | 0 <= k < |prefix| ensures Accepts(prefix[k]) {
          assert prefix[k] == replies[k];
        }
      }
      AcceptedPrefix(entries, prefix);
      var p := Run(entries, prefix);
      if |p.queue| > 0 {
        CutStep(entries, p, replies[|replies| - 1]);
      }
    }
  }

  /**
   * With every post accepted and enough replies, all entries are delivered
   * in `ceil(n / 15)` posts, each of the cut batches in order.
   */
  lemma AllAcceptedDelivers(entries: seq<Value>, replies: seq<Reply>)
    requires AllAccept(replies) && |replies| >= BatchCount(|entries|)
    ensures var r := Run(entries, replies);
            && r.queue == [] && r.posted == r.accepted && Flatten(r.accepted) == entries
            && |r.accepted| == BatchCount(|entries|)
            && forall i :: 0 <= i < |r.accepted| ==> r.accepted[i] == Slice(entries, i)
  {
    AcceptedPrefix(entries, replies);
    var r := Run(entries, replies);
    var k := |r.accepted|;
    assert r.queue == [];
    if k * BatchSize <= |entries| {
      assert entries[k * BatchSize..] == [];
    }
  }

  /** When no post fails, the loop as written and the loop as intended do the same. */
  lemma {:induction false} AsWrittenAgreesWhenAllAccepted(entries: seq<Value>, replies: seq<Reply>)
    requires AllAccept(replies)
    ensures RunAsWritten(entries, replies) == Ok(Run(entries, replies))
  {
    if replies != [] {
      var prefix := replies[..|replies| - 1];
      assert AllAccept(prefix) by {
        forall k | 0 <= k < |prefix| ensures Accepts(prefix[k]) {
          assert prefix[k] == replies[k];
        }
      }
      AsWrittenAgreesWhenAllAccepted(entries, prefix);
      assert Accepts(replies[|replies| - 1]);
    }
  }

  /** 32 entries, every post accepted: three posts of 15, 15 and 2 entries. */
  lemma ThirtyTwoEntries(entries: seq<Value>, replies: seq<Reply>)
    requires |entries| == 32 && |replies| == 3 && AllAccept(replies)
    ensures var r := Run(entries, replies);
            && r.queue == [] && |r.posted| == 3
            && |r.posted[0]| == 15 && |r.posted[1]| == 15 && |r.posted[2]| == 2
            && r.posted[0] + r.posted[1] + r.posted[2] == entries
  {
    AllAcceptedDelivers(entries, replies);
    var r := Run(entries, replies);
    assert r.posted[0] == Slice(entries, 0) && r.posted[1] == Slice(entries, 1) && r.posted[2] == Slice(entries, 2);
    assert entries == entries[0..15] + entries[15..30] + entries[30..32];
  }

  // ------------------------------------------------------------------ findings

  /**
   * A batch that fails once is put back in front of a queue that still holds
   * it, so the retry posts it twice: one entry, a failed post, then an
   * accepted one, and the destination accepts that entry twice in one batch.
   */
  lemma RetryPostsBatchTwice(e: Value)
    ensures var r := RunAsWritten([e], [Reply(500, []), Reply(200, [])]);
            && r == Ok(Progress([], [[e], [e, e]], [[e, e]]))
            && Flatten(r.value.accepted) + r.value.queue != [e]
  {
    assert [Reply(500, []), Reply(200, [])][..1] == [Reply(500, [])];
    assert [Reply(500, [])][..0] == [];
    assert RunAsWritten([e], []) == Ok(Progress([e], [], []));
    assert Take([e]) == [e] && [e] + [e] == [e, e];
    var s1 := StepAsWritten(Progress([e], [], []), Reply(500, []));
    assert s1.Ok? && s1.value.queue == [e, e] && s1.value.posted == [[e]] && s1.value.accepted == [];
    assert s1 == Ok(Progress([e, e], [[e]], []));
    assert RunAsWritten([e], [Reply(500, [])]) == Ok(Progress([e, e], [[e]], []));
    assert Take([e, e]) == [e, e] && Drop([e, e]) == [];
    var s2 := StepAsWritten(Progress([e, e], [[e]], []), Reply(200, []));
    assert s2.Ok?;
    assert s2.value.queue == [];
    assert s2.value.posted == [[e], [e, e]];
    assert s2.value.accepted == [[e, e]];
    assert s2 == Ok(Progress([], [[e], [e, e]], [[e, e]]));
    assert Flatten([[e, e]]) == Flatten([[e, e]][..0]) + [e, e];
  }

  /** The intended retry posts the failed batch again and accepts each entry once. */
  lemma RetryPostsBatchOnce(e: Value)
    ensures var r := Run([e], [Reply(500, []), Reply(200, [])]);
            r == Progress([], [[e], [e]], [[e]]) && Flatten(r.accepted) == [e]
  {
    assert [Reply(500, []), Reply(200, [])][..1] == [Reply(500, [])];
    assert [Reply(500, [])][..0] == [];
    assert Run([e], [Reply(500, [])]) == Progress([e], [[e]], []);
  }

  /** A throttled entry in the reply ends the delivery with AttributeError instead of a retry. */
  lemma ThrottleRaises(e: Value)
    ensures RunAsWritten([e], [Reply(200, [Status(429)])]) == Err(AttributeError)
    ensures Run([e], [Reply(200, [Status(429)])]).queue == [e]
  {
    assert [Reply(200, [Status(429)])][..0] == [];
  }

  /** A throttled post, as intended, leaves the queue as it was, so the next post is the same batch. */
  lemma ThrottledBatchIsRetried(entries: seq<Value>, replies: seq<Reply>, reply: Reply)
    requires Status(429) in reply.items && Run(entries, replies).queue != []
    ensures var p := Run(entries, replies);
            var s := Run(entries, replies + [reply]);
            s.queue == p.queue && s.accepted == p.accepted && s.posted == p.posted + [Take(p.queue)]
  {
    assert (replies + [reply])[..|replies|] == replies;
  }

  /** The announced batch count is one too many whenever the entries fill whole batches. */
  lemma LoggedBatchCountOffByOne(n: nat)
    ensures LoggedBatchCount(n) == BatchCount(n) <==> n % BatchSize != 0
    ensures LoggedBatchCount(30) == 3 && BatchCount(30) == 2
  {
  }
}
