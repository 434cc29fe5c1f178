/** What one uninterrupted sending session does to a recipient snapshot, stated without batches:
    a prefix of the ascending queue is delivered, one result each. */
module SendSession {
  import opened Prelude
  import opened BroadcastModels
  import opened RecipientRows

  function Queue(rows: Rows): seq<int> {
    InOrder(WithStatus(rows, Pending))
  }

  ghost predicate NoneSending(rows: Rows) {
    forall k | k in rows :: rows[k] != Sending
  }

  /** `rows` after the first recipients of `queue` were answered with `results`, in order. */
  function Answered(rows: Rows, queue: seq<int>, results: seq<SendResult>): Rows
    requires |results| <= |queue|
  {
    if results == [] then rows else
      var n := |results| - 1;
      var before := Answered(rows, queue, results[..n]);
      if results[n].unauthorized then before else Settled(before, queue[n], results[n].status)
  }

  /** Length of the unbroken run of FAILED at the end. */
  function Trailing(results: seq<SendResult>): nat {
    if results == [] || results[|results| - 1].status != DeliveryStatus.Failed then 0
    else 1 + Trailing(results[..|results| - 1])
  }

  lemma {:induction false} TrailingMeans(results: seq<SendResult>, n: nat)
    requires n <= |results|
    ensures Trailing(results) >= n <==>
              forall k | |results| - n <= k < |results| :: results[k].status == DeliveryStatus.Failed
  {
    if n > 0 && results[|results| - 1].status == DeliveryStatus.Failed {
      TrailingMeans(results[..|results| - 1], n - 1);
    }
  }

  /** Nothing in `results` has made the runner stop. */
  ghost predicate GoesOn(results: seq<SendResult>, maxFailures: int) {
    results != [] ==>
      var n := |results| - 1;
      && GoesOn(results[..n], maxFailures)
      && !results[n].unauthorized && Trailing(results) < maxFailures
  }

  /** The last result, and only the last, gave a reason to stop. */
  ghost predicate StopsAtEnd(results: seq<SendResult>, maxFailures: int) {
    && results != []
    && GoesOn(results[..|results| - 1], maxFailures)
    && (results[|results| - 1].unauthorized || Trailing(results) >= maxFailures)
  }

  lemma OneMore(results: seq<SendResult>, result: SendResult, maxFailures: int)
    requires GoesOn(results, maxFailures)
    ensures if !result.unauthorized && Trailing(results + [result]) < maxFailures
            then GoesOn(results + [result], maxFailures) else StopsAtEnd(results + [result], maxFailures)
  {
    assert (results + [result])[..|results|] == results;
  }

  lemma {:induction false} TrailingBound(results: seq<SendResult>)
    ensures Trailing(results) <= |results|
  {
    if results != [] {
      TrailingBound(results[..|results| - 1]);
    }
  }

  /** The `count` results before index n were all FAILED. */
  ghost predicate FailedInARow(results: seq<SendResult>, count: nat, n: nat)
    requires count <= n <= |results|
  {
    forall k | n - count <= k < n :: results[k].status == DeliveryStatus.Failed
  }

  /** A session goes on exactly while no token was refused and no `maxFailures` results in a row were FAILED. */
  lemma {:induction false} GoesOnMeans(results: seq<SendResult>, maxFailures: nat)
    requires maxFailures > 0
    ensures GoesOn(results, maxFailures) <==>
              && (forall k | 0 <= k < |results| :: !results[k].unauthorized)
              && (forall n: nat | maxFailures <= n <= |results| :: !FailedInARow(results, maxFailures, n))
  {
    if results != [] {
      var size := |results|;
      var before := results[..size - 1];
      GoesOnMeans(before, maxFailures);
      assert forall k | 0 <= k < size - 1 :: before[k] == results[k];
      forall n: nat | maxFailures <= n < size
        ensures FailedInARow(before, maxFailures, n) <==> FailedInARow(results, maxFailures, n)
      {
      }
      TrailingBound(results);
      if maxFailures <= size {
        TrailingMeans(results, maxFailures);
        assert Trailing(results) >= maxFailures <==> FailedInARow(results, maxFailures, size);
      }
    }
  }

  // ---------------------------------------------------------------- facts about the queue

  lemma QueueFacts(rows: Rows)
    ensures Ascending(Queue(rows))
    ensures forall k :: k in Queue(rows) <==> k in rows && rows[k] == Pending
  {
    InOrderSorts(WithStatus(rows, Pending));
  }

  lemma {:induction false} AnsweredElsewhere(rows: Rows, queue: seq<int>, results: seq<SendResult>, k: int)
    requires |results| <= |queue| && k in rows && k !in queue[..|results|]
    ensures Answered(rows, queue, results).Keys == rows.Keys
    ensures Answered(rows, queue, results)[k] == rows[k]
  {
    if results != [] {
      var n := |results| - 1;
      assert queue[..n + 1] == queue[..n] + [queue[n]];
      assert forall x | x in queue[..n] :: x in queue[..n + 1];
      AnsweredElsewhere(rows, queue, results[..n], k);
    }
  }

  lemma {:induction false} AnsweredKeys(rows: Rows, queue: seq<int>, results: seq<SendResult>)
    requires |results| <= |queue| && forall k | k in queue :: k in rows
    ensures Answered(rows, queue, results).Keys == rows.Keys
    ensures NoneSending(rows) ==> NoneSending(Answered(rows, queue, results))
  {
    if results != [] {
      AnsweredKeys(rows, queue, results[..|results| - 1]);
    }
  }

  /** Recipient `i` of the queue ends with its own result. */
  lemma {:induction false} AnsweredAtIndex(rows: Rows, queue: seq<int>, results: seq<SendResult>, i: nat)
    requires |results| <= |queue| && i < |results| && !results[i].unauthorized
    requires Ascending(queue) && forall k | k in queue :: k in rows
    ensures queue[i] in Answered(rows, queue, results)
    ensures Answered(rows, queue, results)[queue[i]] == Recorded(results[i].status)
  {
    var n := |results| - 1;
    assert queue[i] in queue;
    AnsweredKeys(rows, queue, results[..n]);
    if i < n {
      AnsweredAtIndex(rows, queue, results[..n], i);
    }
  }

  /** When the whole queue was answered without a stop, every recipient is recorded. */
  lemma WholeQueueRecorded(rows: Rows, results: seq<SendResult>, maxFailures: int)
    requires NoneSending(rows) && |results| == |Queue(rows)| && GoesOn(results, maxFailures)
    ensures AllRecorded(Answered(rows, Queue(rows), results))
  {
    QueueFacts(rows);
    var queue := Queue(rows);
    AnsweredKeys(rows, queue, results);
    forall k | k in rows ensures Answered(rows, queue, results)[k].Recorded? {
      if rows[k] == Pending {
        var i :| 0 <= i < |queue| && queue[i] == k;
        GoesOnAt(results, maxFailures, i);
        AnsweredAtIndex(rows, queue, results, i);
      } else {
        assert queue[..|results|] == queue;
        AnsweredElsewhere(rows, queue, results, k);
      }
    }
  }

  lemma {:induction false} GoesOnAt(results: seq<SendResult>, maxFailures: int, i: nat)
    requires GoesOn(results, maxFailures) && i < |results|
    ensures !results[i].unauthorized
  {
    if i < |results| - 1 {
      GoesOnAt(results[..|results| - 1], maxFailures, i);
    }
  }

  /** The recipient on whom the token was refused stays in the queue. */
  lemma RefusedStaysPending(rows: Rows, results: seq<SendResult>, maxFailures: int, i: nat)
    requires i < |results| <= |Queue(rows)| && results[i].unauthorized
    requires GoesOn(results[..|results| - 1], maxFailures)
    ensures Queue(rows)[i] in Answered(rows, Queue(rows), results)
    ensures Answered(rows, Queue(rows), results)[Queue(rows)[i]] == Pending
  {
    var queue, n := Queue(rows), |results| - 1;
    if i < n {
      GoesOnAt(results[..n], maxFailures, i);
    }
    QueueFacts(rows);
    assert queue[n] in queue && queue[n] !in queue[..n];
    AnsweredElsewhere(rows, queue, results[..n], queue[n]);
  }

  // ---------------------------------------------------------------- batches disappear

  /** The rows while a batch is in hand: `todo` is the next stretch of the queue, marked `sending`. */
  ghost predicate InHand(start: Rows, results: seq<SendResult>, todo: seq<int>, rows: Rows) {
    var queue := Queue(start);
    && NoneSending(start)
    && |results| + |todo| <= |queue|
    && todo == queue[|results|..|results| + |todo|]
    && rows == Claimed(Answered(start, queue, results), todo)
    && Queue(rows) == queue[|results| + |todo|..]
  }

  lemma TodoIsPending(start: Rows, results: seq<SendResult>, todo: seq<int>, rows: Rows)
    requires InHand(start, results, todo, rows)
    ensures var r := Answered(start, Queue(start), results);
            r.Keys == start.Keys && NoneSending(r) && forall k | k in todo :: k in r && r[k] == Pending
    ensures Ascending(todo)
  {
    var queue := Queue(start);
    QueueFacts(start);
    AnsweredKeys(start, queue, results);
    forall k | k in todo ensures k in start && Answered(start, queue, results)[k] == Pending {
      var i :| 0 <= i < |todo| && todo[i] == k;
      assert queue[|results| + i] == k && k in queue;
      assert k !in queue[..|results|];
      AnsweredElsewhere(start, queue, results, k);
    }
  }

  lemma ClaimedNothing(rows: Rows)
    ensures Claimed(rows, []) == rows
  {
  }

  lemma StartInHand(start: Rows)
    requires NoneSending(start)
    ensures InHand(start, [], [], start)
  {
    ClaimedNothing(start);
    assert Queue(start)[0..] == Queue(start) && Queue(start)[0..0] == [];
  }

  lemma ClaimInHand(start: Rows, results: seq<SendResult>, rows: Rows, limit: nat)
    requires InHand(start, results, [], rows)
    ensures InHand(start, results, NextBatch(rows, limit), Claimed(rows, NextBatch(rows, limit)))
  {
    var batch := NextBatch(rows, limit);
    var queue := Queue(start);
    ClaimedNothing(Answered(start, queue, results));
    assert batch == queue[|results|..|results| + |batch|];
    ClaimQueue(rows, limit);
    assert queue[|results|..][|batch|..] == queue[|results| + |batch|..];
  }

  lemma ClaimQueue(rows: Rows, limit: nat)
    ensures var batch := NextBatch(rows, limit);
            |batch| <= |Queue(rows)| && Queue(Claimed(rows, batch)) == Queue(rows)[|batch|..]
  {
    var batch := NextBatch(rows, limit);
    assert batch == Queue(rows)[..|batch|];
    QueueFacts(rows);
    assert WithStatus(Claimed(rows, batch), Pending) == WithStatus(rows, Pending) - Elements(batch);
    InOrderDrop(WithStatus(rows, Pending), |batch|);
  }

  lemma EmptyBatchEndsQueue(start: Rows, results: seq<SendResult>, rows: Rows, limit: nat)
    requires InHand(start, results, [], rows)
    ensures NextBatch(rows, limit) == [] && limit > 0 ==> |results| == |Queue(start)|
  {
    assert |Queue(rows)| == |Queue(start)| - |results|;
  }

  lemma SettleInHand(start: Rows, results: seq<SendResult>, todo: seq<int>, rows: Rows, result: SendResult)
    requires InHand(start, results, todo, rows) && todo != [] && !result.unauthorized
    ensures InHand(start, results + [result], todo[1..], Settled(rows, todo[0], result.status))
  {
    var queue := Queue(start);
    TodoIsPending(start, results, todo, rows);
    var after := Settled(rows, todo[0], result.status);
    var r := Answered(start, queue, results);
    assert todo[0] in todo && todo[0] == queue[|results|];
    assert (results + [result])[..|results|] == results;
    assert Answered(start, queue, results + [result]) == Settled(r, todo[0], result.status);
    forall k ensures k in todo[1..] <==> k in todo && k != todo[0] {
      assert todo == [todo[0]] + todo[1..];
    }
    assert after == Claimed(Settled(r, todo[0], result.status), todo[1..]);
    assert WithStatus(after, Pending) == WithStatus(rows, Pending);
  }

  /** Releasing what is left in hand restores the rows of a session without batches, also when
      nothing is left and the statement releases every row in `sending`. */
  lemma ReleaseInHand(start: Rows, results: seq<SendResult>, todo: seq<int>, rows: Rows)
    requires InHand(start, results, todo, rows)
    ensures Released(rows, todo) == Answered(start, Queue(start), results)
  {
    TodoIsPending(start, results, todo, rows);
    var r := Answered(start, Queue(start), results);
    forall k | k in r ensures Released(rows, todo)[k] == r[k] {
      assert rows[k] == if k in todo then Sending else r[k];
    }
    assert Released(rows, todo).Keys == r.Keys;
  }
}
