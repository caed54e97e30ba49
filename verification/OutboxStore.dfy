// One worker's whole delivery pass over the event table, while no other worker runs: recover, select, then claim,
// deliver and settle each row in turn. It is a run of the interleaved protocol, so what holds of every run holds of it.

module OutboxStore {
  import opened Common
  import opened Outbox
  import opened OutboxTheorems

  // The order of the selection: earliest due first, older event first among equals.
  predicate Precedes(rows: seq<Row>, i: nat, j: nat)
    requires i < |rows| && j < |rows|
  {
    rows[i].nextAttemptAt < rows[j].nextAttemptAt || (rows[i].nextAttemptAt == rows[j].nextAttemptAt && i < j)
  }

  predicate Due(r: Row, now: int) { r.status == Pending && r.nextAttemptAt <= now }

  // The due rows in their order, at most `limit` of them: none of those left out comes before one that is in.
  ghost predicate Selection(rows: seq<Row>, selected: seq<nat>, now: int, limit: nat) {
    && |selected| <= limit
    && (forall k :: 0 <= k < |selected| ==> selected[k] < |rows| && Due(rows[selected[k]], now))
    && (forall j, k :: 0 <= j < k < |selected| ==> Precedes(rows, selected[j], selected[k]))
    && (forall i: nat :: i < |rows| && Due(rows[i], now) && i !in selected ==>
          |selected| == limit && forall k :: 0 <= k < |selected| ==> Precedes(rows, selected[k], i))
  }

  // What claiming and settling a queued row leaves on it.
  function SettledRow(r: Row, accepted: bool, stored: bool, at: int): Row {
    if accepted && stored then r.(status := Delivered, attempts := r.attempts + 1, lockedAt := None, version := r.version + 2)
    else r.(status := RetryStatus(r.attempts, r.maxAttempts), attempts := r.attempts + 1, lockedAt := None,
            nextAttemptAt := RetryAt(r.attempts, r.maxAttempts, at), version := r.version + 2)
  }

  // The first k rows of the batch are settled and every other row is as it was in the queue.
  ghost predicate Settled(queue: seq<Row>, rows: seq<Row>, batch: seq<nat>, k: nat,
                          accepted: nat -> bool, stored: nat -> bool, ends: nat -> int)
  {
    && |rows| == |queue| && k <= |batch|
    && (forall j :: 0 <= j < k ==> batch[j] < |queue|
                                   && rows[batch[j]] == SettledRow(queue[batch[j]], accepted(batch[j]), stored(batch[j]), ends(batch[j])))
    && (forall i: nat :: i < |rows| && i !in batch[..k] ==> rows[i] == queue[i])
  }

  lemma OneMoreSettled(queue: seq<Row>, was: seq<Row>, rows: seq<Row>, batch: seq<nat>, k: nat,
                       accepted: nat -> bool, stored: nat -> bool, ends: nat -> int)
    requires k < |batch| && Settled(queue, was, batch, k, accepted, stored, ends)
    requires batch[k] < |was| && forall j :: 0 <= j < k ==> batch[j] != batch[k]
    requires rows == was[batch[k] := SettledRow(was[batch[k]], accepted(batch[k]), stored(batch[k]), ends(batch[k]))]
    ensures Settled(queue, rows, batch, k + 1, accepted, stored, ends)
  {
    assert batch[..k + 1] == batch[..k] + [batch[k]];
    assert batch[k] !in batch[..k];
  }

  lemma BeginningInOrder(s: State, now: int, me: nat, batch: seq<nat>)
    ensures Run(s, [StartCall(now)] + [ReadCall(me, batch)]) == Read(Start(s, StartCall(now)), ReadCall(me, batch))
  {
    hide Read, Start, Run;
    RunNone(s);
    assert [StartCall(now)] == [] + [StartCall(now)];
    RunOne(s, [], StartCall(now));
    RunOne(s, [StartCall(now)], ReadCall(me, batch));
  }

  // How many claims ran out.
  function RanOut(rows: seq<Row>, now: int): nat {
    if rows == [] then 0
    else RanOut(rows[..|rows| - 1], now) + if RecoveredRow(rows[|rows| - 1], now) != rows[|rows| - 1] then 1 else 0
  }

  lemma {:induction false} ReadingsSameRows(s: State, s': State, selected: seq<nat>)
    requires s.rows == s'.rows && forall i :: 0 <= i < |selected| ==> selected[i] < |s.rows|
    ensures Readings(s, selected) == Readings(s', selected)
  {
    if selected != [] {
      ReadingsSameRows(s, s', selected[..|selected| - 1]);
    }
  }

  function Steps(me: nat, accepted: bool, stored: bool, at: int): seq<Call> {
    [ClaimCall(me)] + [DeliverCall(me, accepted)] + [CompleteCall(me, stored)] + [FailCall(me, at)]
  }

  lemma StepsInOrder(s: State, me: nat, accepted: bool, stored: bool, at: int)
    ensures Run(s, Steps(me, accepted, stored, at))
            == Fail(Complete(Deliver(Claim(s, ClaimCall(me)), DeliverCall(me, accepted)), CompleteCall(me, stored)), FailCall(me, at))
  {
    hide Claim, Deliver, Complete, Fail, Run;
    RunNone(s);
    assert Steps(me, accepted, stored, at)
           == [] + [ClaimCall(me)] + [DeliverCall(me, accepted)] + [CompleteCall(me, stored)] + [FailCall(me, at)];
    RunOne(s, [], ClaimCall(me));
    RunOne(s, [] + [ClaimCall(me)], DeliverCall(me, accepted));
    RunOne(s, [] + [ClaimCall(me)] + [DeliverCall(me, accepted)], CompleteCall(me, stored));
    RunOne(s, [] + [ClaimCall(me)] + [DeliverCall(me, accepted)] + [CompleteCall(me, stored)], FailCall(me, at));
  }

  class Store {
    var rows: seq<Row>
    var reviews: seq<Review>
    ghost var workers: seq<Worker>
    ghost var history: seq<Happening>

    ghost function Contents(): State
      reads this
    {
      State(rows, workers, history, reviews)
    }

    constructor ()
      ensures Contents() == EMPTY
    {
      rows, workers, history, reviews := [], [], [], [];
    }

    // Puts back the claims whose lease ran out.
    method Recover(now: int) returns (recovered: nat)
      modifies this`rows
      ensures rows == Recovered(old(rows), now) && recovered == RanOut(old(rows), now)
    {
      ghost var before := rows;
      recovered := 0;
      for i := 0 to |rows|
        invariant |rows| == |before|
        invariant forall j :: 0 <= j < |rows| ==> rows[j] == if j < i then RecoveredRow(before[j], now) else before[j]
        invariant recovered == RanOut(before[..i], now)
      {
        assert before[..i + 1][..i] == before[..i];
        if rows[i].status == Processing && rows[i].lockedAt.Some? && rows[i].lockedAt.value < now - LEASE_MILLISECONDS {
          rows := rows[i := rows[i].(status := Pending, lockedAt := None, version := rows[i].version + 1)];
          recovered := recovered + 1;
        }
      }
      assert before[..|before|] == before;
      assert rows == Recovered(before, now);
    }

    method SelectDue(now: int, limit: nat) returns (selected: seq<nat>)
      requires limit <= BATCH_MAXIMUM
      ensures Selection(rows, selected, now, limit)
    {
      selected := [];
      while |selected| < limit
        invariant |selected| <= limit
        invariant forall k :: 0 <= k < |selected| ==> selected[k] < |rows| && Due(rows[selected[k]], now)
        invariant forall j, k :: 0 <= j < k < |selected| ==> Precedes(rows, selected[j], selected[k])
        invariant forall i: nat, k :: i < |rows| && Due(rows[i], now) && i !in selected && 0 <= k < |selected| ==> Precedes(rows, selected[k], i)
        decreases limit - |selected|
      {
        var next: Option<nat> := None;
        for i := 0 to |rows|
          invariant next.Some? ==> next.value < i && Due(rows[next.value], now) && next.value !in selected
          invariant forall j: nat :: j < i && Due(rows[j], now) && j !in selected ==>
                      next.Some? && (j == next.value || Precedes(rows, next.value, j))
        {
          if rows[i].status == Pending && rows[i].nextAttemptAt <= now && i !in selected
             && (next.None? || rows[i].nextAttemptAt < rows[next.value].nextAttemptAt) {
            next := Some(i);
          }
        }
        if next.None? {
          return;
        }
        selected := selected + [next.value];
      }
    }

    // Recovery and selection: the new worker and the batch it read.
    method Begin(now: int, limit: nat) returns (batch: seq<nat>, recovered: nat)
      requires limit <= BATCH_MAXIMUM && !StampTaken(Contents(), now)
      modifies this
      ensures Contents() == Read(Start(old(Contents()), StartCall(now)), ReadCall(|old(workers)|, batch))
      ensures rows == Recovered(old(rows), now) && recovered == RanOut(old(rows), now)
      ensures Selection(rows, batch, now, limit)
      ensures workers == old(workers) + [Worker(now, Readings(Contents(), batch), 0, Idle, 0, 0, 0)]
    {
      hide Run, Inv;
      ghost var me, before := |workers|, Contents();
      recovered := Recover(now);
      workers := workers + [Worker(now, [], 0, Idle, 0, 0, 0)];
      ghost var started := Contents();
      assert started == Start(before, StartCall(now));
      batch := SelectDue(now, limit);
      workers := workers[me := workers[me].(batch := Readings(started, batch))];
      ReadingsSameRows(started, Contents(), batch);
    }

    // The pass: which deliveries the adapter accepts, which acceptances are stored and when each one ends come from outside.
    method DeliverPending(now: int, limit: nat, accepted: nat -> bool, stored: nat -> bool, ends: nat -> int)
      returns (delivered: nat, failed: nat, deadLettered: nat, recovered: nat, ghost batch: seq<nat>, ghost calls: seq<Call>)
      requires limit <= BATCH_MAXIMUM && !StampTaken(Contents(), now)
      modifies this
      ensures Contents() == Run(old(Contents()), calls)
      ensures |rows| == |old(rows)| && recovered == RanOut(old(rows), now)
      ensures delivered + failed == |batch| <= limit && deadLettered <= failed
      ensures Settled(Recovered(old(rows), now), rows, batch, |batch|, accepted, stored, ends)
      ensures Selection(Recovered(old(rows), now), batch, now, limit)
      ensures |workers| == |old(workers)| + 1
      ensures var w := workers[|old(workers)|]; w.delivered == delivered && w.failed == failed && w.deadLettered == deadLettered
    {
      hide Run, Inv;
      ghost var before, me := Contents(), |workers|;
      var selected;
      selected, recovered := Begin(now, limit);
      BeginningInOrder(before, now, me, selected);
      delivered, failed, deadLettered, calls := DeliverBatch(selected, now, accepted, stored, ends, me);
      RunInTwo(before, [StartCall(now)] + [ReadCall(me, selected)], calls);
      calls := [StartCall(now)] + [ReadCall(me, selected)] + calls;
      batch := selected;
    }

    // The loop over the rows that were read.
    method DeliverBatch(batch: seq<nat>, now: int, accepted: nat -> bool, stored: nat -> bool, ends: nat -> int, ghost me: nat)
      returns (delivered: nat, failed: nat, deadLettered: nat, ghost calls: seq<Call>)
      requires forall i :: 0 <= i < |batch| ==> batch[i] < |rows| && rows[batch[i]].status == Pending
      requires forall i, j :: 0 <= i < j < |batch| ==> batch[i] != batch[j]
      requires me < |workers| && workers[me] == Worker(now, Readings(Contents(), batch), 0, Idle, 0, 0, 0)
      modifies this
      ensures Contents() == Run(old(Contents()), calls)
      ensures Settled(old(rows), rows, batch, |batch|, accepted, stored, ends)
      ensures delivered + failed == |batch| && deadLettered <= failed
      ensures |workers| == |old(workers)| && workers[me] == old(workers)[me].(cursor := |batch|, delivered := delivered, failed := failed,
                                                                              deadLettered := deadLettered)
    {
      hide Run, Inv;
      ghost var before, readings := Contents(), workers[me].batch;
      delivered, failed, deadLettered, calls := 0, 0, 0, [];
      RunNone(before);
      for k := 0 to |batch|
        invariant |workers| == |before.workers| && workers[me] == Worker(now, readings, k, Idle, delivered, failed, deadLettered)
        invariant Settled(before.rows, rows, batch, k, accepted, stored, ends)
        invariant delivered + failed == k && deadLettered <= failed
        invariant Contents() == Run(before, calls)
      {
        var id := batch[k];
        assert id !in batch[..k] && rows[id] == before.rows[id];
        ghost var was := rows;
        var d, f, dl := DeliverOne(id, now, rows[id].attempts, rows[id].maxAttempts, accepted(id), stored(id), ends(id), me);
        OneMoreSettled(before.rows, was, rows, batch, k, accepted, stored, ends);
        delivered, failed, deadLettered := delivered + d, failed + f, deadLettered + dl;
        RunInTwo(before, calls, Steps(me, accepted(id), stored(id), ends(id)));
        calls := calls + Steps(me, accepted(id), stored(id), ends(id));
      }
    }

    // The claim: it takes the row only while the row is still queued.
    method ClaimEvent(id: nat, stamp: int, ghost me: nat) returns (claimed: bool)
      requires AtRow(Contents(), me) && workers[me].phase == Idle && workers[me].stamp == stamp && Current(workers[me]).row == id
      modifies this
      ensures Contents() == Claim(old(Contents()), ClaimCall(me))
      ensures claimed <==> old(rows)[id].status == Pending
      ensures Inv(old(Contents())) ==> Inv(Contents())
    {
      hide Inv;
      if Inv(Contents()) {
        ApplyKeepsInv(Contents(), ClaimCall(me));
      }
      claimed := rows[id].status == Pending;
      if claimed {
        rows := rows[id := rows[id].(status := Processing, lockedAt := Some(stamp), version := rows[id].version + 1)];
        workers := workers[me := workers[me].(phase := Claimed)];
      } else {
        workers := workers[me := workers[me].(cursor := workers[me].cursor + 1)];
      }
    }

    // Marks an accepted event delivered if the claim is still this worker's.
    method CompleteEvent(id: nat, stamp: int, stored: bool, ghost me: nat) returns (completed: bool)
      requires AtRow(Contents(), me) && workers[me].phase == Accepted && workers[me].stamp == stamp && Current(workers[me]).row == id
      modifies this
      ensures Contents() == Complete(old(Contents()), CompleteCall(me, stored))
      ensures completed <==> stored && Fenced(old(rows)[id], stamp)
      ensures Inv(old(Contents())) ==> Inv(Contents())
    {
      hide Inv;
      if Inv(Contents()) {
        ApplyKeepsInv(Contents(), CompleteCall(me, stored));
      }
      completed := stored && rows[id].status == Processing && rows[id].lockedAt == Some(stamp);
      if completed {
        rows := rows[id := rows[id].(status := Delivered, attempts := rows[id].attempts + 1, lockedAt := None, version := rows[id].version + 1)];
        history := history + [Settlement(id, me, workers[me].cursor, Delivered)];
        workers := workers[me := workers[me].(phase := Idle, cursor := workers[me].cursor + 1, delivered := workers[me].delivered + 1)];
      } else {
        workers := workers[me := workers[me].(phase := Rejected)];
      }
    }

    // Queues a failed event again or gives it up, if the claim is still this worker's.
    method FailEvent(id: nat, stamp: int, attempts: nat, maxAttempts: nat, at: int, ghost me: nat) returns (status: RowStatus)
      requires AtRow(Contents(), me) && workers[me].phase == Rejected && workers[me].stamp == stamp
      requires Current(workers[me]) == Reading(id, attempts, maxAttempts)
      modifies this
      ensures Contents() == Fail(old(Contents()), FailCall(me, at))
      ensures status == RetryStatus(attempts, maxAttempts)
      ensures Inv(old(Contents())) ==> Inv(Contents())
    {
      hide Inv;
      if Inv(Contents()) {
        ApplyKeepsInv(Contents(), FailCall(me, at));
      }
      status := RetryStatus(attempts, maxAttempts);
      if rows[id].status == Processing && rows[id].lockedAt == Some(stamp) {
        rows := rows[id := rows[id].(status := status, attempts := rows[id].attempts + 1, lockedAt := None,
                                     nextAttemptAt := RetryAt(attempts, maxAttempts, at), version := rows[id].version + 1)];
        history := history + [Settlement(id, me, workers[me].cursor, status)];
      }
      workers := workers[me := workers[me].(phase := Idle, cursor := workers[me].cursor + 1, failed := workers[me].failed + 1,
                                            deadLettered := workers[me].deadLettered + if status == DeadLetter then 1 else 0)];
    }

    // An administrator's retry or ignore of a row as it was loaded.
    method ReviewEvent(id: nat, retry: bool, version: nat, at: int) returns (done: bool)
      modifies this
      ensures Contents() == ReviewRow(old(Contents()), ReviewCall(id, retry, version, at))
      ensures done <==> id < |old(rows)| && Reviewable(old(rows)[id], version)
      ensures Inv(old(Contents())) ==> Inv(Contents())
    {
      hide Inv;
      if Inv(Contents()) {
        ApplyKeepsInv(Contents(), ReviewCall(id, retry, version, at));
      }
      if id >= |rows| || !(rows[id].status in {Pending, DeadLetter}) || rows[id].version != version {
        return false;
      }
      var from := rows[id].status;
      if retry {
        rows := rows[id := rows[id].(status := Pending, lockedAt := None, nextAttemptAt := at, version := version + 1)];
      } else {
        rows := rows[id := rows[id].(status := Ignored, lockedAt := None, version := version + 1)];
      }
      reviews := reviews + [Review(id, from, rows[id].status)];
      return true;
    }

    // One event of the batch, with the attempts as they were read.
    method DeliverOne(id: nat, stamp: int, attempts: nat, maxAttempts: nat, accepted: bool, stored: bool, at: int, ghost me: nat)
      returns (delivered: nat, failed: nat, deadLettered: nat)
      requires AtRow(Contents(), me) && workers[me].phase == Idle && workers[me].stamp == stamp
      requires Current(workers[me]) == Reading(id, attempts, maxAttempts)
      requires rows[id].status == Pending && rows[id].attempts == attempts && rows[id].maxAttempts == maxAttempts
      modifies this
      ensures Contents() == Run(old(Contents()), Steps(me, accepted, stored, at))
      ensures rows == old(rows)[id := SettledRow(old(rows)[id], accepted, stored, at)]
      ensures delivered == (if accepted && stored then 1 else 0) && delivered + failed == 1
      ensures deadLettered == if failed == 1 && RetryStatus(attempts, maxAttempts) == DeadLetter then 1 else 0
      ensures var w := old(workers)[me];
              workers == old(workers)[me := w.(cursor := w.cursor + 1, delivered := w.delivered + delivered,
                                               failed := w.failed + failed, deadLettered := w.deadLettered + deadLettered)]
    {
      hide Run, Inv;
      StepsInOrder(Contents(), me, accepted, stored, at);
      delivered, failed, deadLettered := 0, 0, 0;
      var claimed := ClaimEvent(id, stamp, me);
      ghost var s1 := Contents();
      if accepted {
        history := history + [Acceptance(id, me, workers[me].cursor)];
      }
      workers := workers[me := workers[me].(phase := if accepted then Accepted else Rejected)];
      assert Contents() == Deliver(s1, DeliverCall(me, accepted));
      var completed := false;
      if accepted {
        completed := CompleteEvent(id, stamp, stored, me);
      }
      if completed {
        delivered := 1;
      } else {
        var status := FailEvent(id, stamp, attempts, maxAttempts, at, me);
        failed := 1;
        if status == DeadLetter {
          deadLettered := 1;
        }
      }
    }
  }
}
