// Delivery of integration events by several workers at once. A worker's stamp is the moment it started; it is written
// on the rows it claims and must still be there when it settles them. An administrator may put a queued or dead row back
// or set it aside. Times are milliseconds.

module Outbox {
  import opened Common

  datatype RowStatus = Pending | Processing | Delivered | DeadLetter | Ignored
  // The version stands for the moment of the last change, which every update of a row sets.
  datatype Row = Row(status: RowStatus, attempts: nat, maxAttempts: nat, nextAttemptAt: int, lockedAt: Option<int>, version: nat)

  // An event as a worker read it: the retry decision uses the attempts of that reading.
  datatype Reading = Reading(row: nat, attempts: nat, maxAttempts: nat)

  // Claimed: the row was taken. Accepted, Rejected: what came of the delivery, not yet settled.
  datatype Phase = Idle | Claimed | Accepted | Rejected
  datatype Worker = Worker(stamp: int, batch: seq<Reading>, cursor: nat, phase: Phase,
                           delivered: nat, failed: nat, deadLettered: nat)

  // What a worker did at a position of its batch, for the theorems: nothing in the services reads it.
  datatype Happening =
    | Acceptance(row: nat, worker: nat, position: nat)
    | Settlement(row: nat, worker: nat, position: nat, outcome: RowStatus)

  // An administrator's decision on a row.
  datatype Review = Review(row: nat, from: RowStatus, to: RowStatus)

  datatype State = State(rows: seq<Row>, workers: seq<Worker>, history: seq<Happening>, reviews: seq<Review>)

  datatype Call =
    | EnqueueCall(maxAttempts: nat, at: int)
    | StartCall(now: int)
    | ReadCall(worker: nat, selected: seq<nat>)
    | ClaimCall(worker: nat)
    | DeliverCall(worker: nat, accepted: bool)
    | CompleteCall(worker: nat, stored: bool)
    | FailCall(worker: nat, at: int)
    | ReviewCall(row: nat, retry: bool, version: nat, at: int)

  const LEASE_MILLISECONDS := 900_000
  const BATCH_MAXIMUM := 25
  const MINUTE := 60_000

  function Pow2(n: nat): nat { if n == 0 then 1 else 2 * Pow2(n - 1) }

  function DelayMinutes(nextAttempts: nat): nat {
    var doubled := Pow2(if nextAttempts == 0 then 0 else nextAttempts - 1);
    if doubled < 360 then doubled else 360
  }

  function RetryStatus(attempts: nat, maxAttempts: nat): RowStatus {
    if attempts + 1 >= maxAttempts then DeadLetter else Pending
  }

  function RetryAt(attempts: nat, maxAttempts: nat, now: int): int {
    if attempts + 1 >= maxAttempts then now else now + DelayMinutes(attempts + 1) * MINUTE
  }

  // A claim whose lease ran out before this moment goes back to the queue.
  function RecoveredRow(r: Row, now: int): Row {
    if r.status == Processing && r.lockedAt.Some? && r.lockedAt.value < now - LEASE_MILLISECONDS
    then r.(status := Pending, lockedAt := None, version := r.version + 1) else r
  }

  function Recovered(rows: seq<Row>, now: int): (r: seq<Row>)
    ensures |r| == |rows| && forall i :: 0 <= i < |rows| ==> r[i] == RecoveredRow(rows[i], now)
  {
    if rows == [] then [] else Recovered(rows[..|rows| - 1], now) + [RecoveredRow(rows[|rows| - 1], now)]
  }

  predicate StampTaken(s: State, stamp: int) {
    exists w :: 0 <= w < |s.workers| && s.workers[w].stamp == stamp
  }

  // Workers start at different moments: stamps are distinct.
  function Start(s: State, c: Call): State
    requires c.StartCall?
  {
    if StampTaken(s, c.now) then s
    else s.(rows := Recovered(s.rows, c.now), workers := s.workers + [Worker(c.now, [], 0, Idle, 0, 0, 0)])
  }

  predicate Selectable(s: State, stamp: int, selected: seq<nat>) {
    && |selected| <= BATCH_MAXIMUM
    && (forall i :: 0 <= i < |selected| ==> selected[i] < |s.rows| && s.rows[selected[i]].status == Pending
                                             && s.rows[selected[i]].nextAttemptAt <= stamp)
    && (forall i, j :: 0 <= i < j < |selected| ==> selected[i] != selected[j])
  }

  function Readings(s: State, selected: seq<nat>): (r: seq<Reading>)
    requires forall i :: 0 <= i < |selected| ==> selected[i] < |s.rows|
    ensures |r| == |selected|
    ensures forall i :: 0 <= i < |r| ==> r[i] == Reading(selected[i], s.rows[selected[i]].attempts, s.rows[selected[i]].maxAttempts)
  {
    if selected == [] then []
    else
      var last := selected[|selected| - 1];
      Readings(s, selected[..|selected| - 1]) + [Reading(last, s.rows[last].attempts, s.rows[last].maxAttempts)]
  }

  function Read(s: State, c: Call): State
    requires c.ReadCall?
  {
    if c.worker >= |s.workers| || s.workers[c.worker].batch != [] || s.workers[c.worker].phase != Idle
       || s.workers[c.worker].cursor != 0 || !Selectable(s, s.workers[c.worker].stamp, c.selected)
    then s
    else s.(workers := s.workers[c.worker := s.workers[c.worker].(batch := Readings(s, c.selected))])
  }

  predicate AtRow(s: State, w: nat) {
    w < |s.workers| && s.workers[w].cursor < |s.workers[w].batch| && s.workers[w].batch[s.workers[w].cursor].row < |s.rows|
  }

  function Current(w: Worker): Reading
    requires w.cursor < |w.batch|
  {
    w.batch[w.cursor]
  }

  function Claim(s: State, c: Call): State
    requires c.ClaimCall?
  {
    if !AtRow(s, c.worker) || s.workers[c.worker].phase != Idle then s
    else
      var w := s.workers[c.worker];
      var id := Current(w).row;
      if s.rows[id].status != Pending then s.(workers := s.workers[c.worker := w.(cursor := w.cursor + 1)])
      else s.(rows := s.rows[id := s.rows[id].(status := Processing, lockedAt := Some(w.stamp), version := s.rows[id].version + 1)],
              workers := s.workers[c.worker := w.(phase := Claimed)])
  }

  // The adapter's answer, or any failure before it.
  function Deliver(s: State, c: Call): State
    requires c.DeliverCall?
  {
    if !AtRow(s, c.worker) || s.workers[c.worker].phase != Claimed then s
    else
      var w := s.workers[c.worker];
      s.(workers := s.workers[c.worker := w.(phase := if c.accepted then Accepted else Rejected)],
         history := if c.accepted then s.history + [Acceptance(Current(w).row, c.worker, w.cursor)] else s.history)
  }

  // The worker's claim is still on the row.
  predicate Fenced(r: Row, stamp: int) { r.status == Processing && r.lockedAt == Some(stamp) }

  // Settling an accepted delivery; a lost lease or a storage failure falls through to the failure path.
  function Complete(s: State, c: Call): State
    requires c.CompleteCall?
  {
    if !AtRow(s, c.worker) || s.workers[c.worker].phase != Accepted then s
    else
      var w := s.workers[c.worker];
      var id := Current(w).row;
      if !c.stored || !Fenced(s.rows[id], w.stamp) then s.(workers := s.workers[c.worker := w.(phase := Rejected)])
      else
        s.(rows := s.rows[id := s.rows[id].(status := Delivered, attempts := s.rows[id].attempts + 1, lockedAt := None,
                                            version := s.rows[id].version + 1)],
           workers := s.workers[c.worker := w.(phase := Idle, cursor := w.cursor + 1, delivered := w.delivered + 1)],
           history := s.history + [Settlement(id, c.worker, w.cursor, Delivered)])
  }

  function Fail(s: State, c: Call): State
    requires c.FailCall?
  {
    if !AtRow(s, c.worker) || s.workers[c.worker].phase != Rejected then s
    else
      var w := s.workers[c.worker];
      var e := Current(w);
      var status := RetryStatus(e.attempts, e.maxAttempts);
      var w' := w.(phase := Idle, cursor := w.cursor + 1, failed := w.failed + 1,
                   deadLettered := w.deadLettered + if status == DeadLetter then 1 else 0);
      if !Fenced(s.rows[e.row], w.stamp) then s.(workers := s.workers[c.worker := w'])
      else
        s.(rows := s.rows[e.row := s.rows[e.row].(status := status, attempts := s.rows[e.row].attempts + 1, lockedAt := None,
                                                  nextAttemptAt := RetryAt(e.attempts, e.maxAttempts, c.at), version := s.rows[e.row].version + 1)],
           workers := s.workers[c.worker := w'],
           history := s.history + [Settlement(e.row, c.worker, w.cursor, status)])
  }

  predicate Reviewable(r: Row, version: nat) { r.status in {Pending, DeadLetter} && r.version == version }

  // An administrator's retry or ignore: it takes the row as it was loaded, or not at all. Attempts are kept.
  function ReviewRow(s: State, c: Call): State
    requires c.ReviewCall?
  {
    if c.row >= |s.rows| || !Reviewable(s.rows[c.row], c.version) then s
    else
      var r := s.rows[c.row];
      var r' := if c.retry then r.(status := Pending, lockedAt := None, nextAttemptAt := c.at, version := r.version + 1)
                else r.(status := Ignored, lockedAt := None, version := r.version + 1);
      s.(rows := s.rows[c.row := r'], reviews := s.reviews + [Review(c.row, r.status, r'.status)])
  }

  function Apply(s: State, c: Call): State {
    if c.EnqueueCall? then s.(rows := s.rows + [Row(Pending, 0, c.maxAttempts, c.at, None, 0)])
    else if c.StartCall? then Start(s, c)
    else if c.ReadCall? then Read(s, c)
    else if c.ClaimCall? then Claim(s, c)
    else if c.DeliverCall? then Deliver(s, c)
    else if c.CompleteCall? then Complete(s, c)
    else if c.FailCall? then Fail(s, c)
    else ReviewRow(s, c)
  }

  function Run(s: State, calls: seq<Call>): State {
    if calls == [] then s else Apply(Run(s, calls[..|calls| - 1]), calls[|calls| - 1])
  }

  const EMPTY := State([], [], [], [])
}
