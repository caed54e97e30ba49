// Whatever the interleaving of workers: a claim is settled at most once and only while its stamp is on the row.

module OutboxTheorems {
  import opened Common
  import opened Sums
  import opened Outbox

  ghost predicate WorkerOk(s: State, w: Worker) {
    && w.cursor <= |w.batch| && (w.phase != Idle ==> w.cursor < |w.batch|)
    && (forall k :: 0 <= k < |w.batch| ==> w.batch[k].row < |s.rows|)
    && (forall j, k :: 0 <= j < k < |w.batch| ==> w.batch[j].row != w.batch[k].row)
  }

  ghost predicate RowOk(r: Row) {
    r.status == Processing <==> r.lockedAt.Some?
  }

  // A settlement lies behind its worker's cursor; an acceptance at most at it.
  ghost predicate HappeningOk(s: State, h: Happening) {
    && h.row < |s.rows| && h.worker < |s.workers|
    && var w := s.workers[h.worker];
       && h.position < |w.batch| && w.batch[h.position].row == h.row
       && h.position < w.cursor + if h.Acceptance? && w.phase in {Accepted, Rejected} then 1 else 0
  }

  // A worker that holds an accepted delivery was answered by the adapter.
  ghost predicate AcceptedOk(s: State, id: nat)
    requires id < |s.workers|
  {
    var w := s.workers[id];
    w.phase == Accepted && w.cursor < |w.batch| ==> Acceptance(w.batch[w.cursor].row, id, w.cursor) in s.history
  }

  ghost predicate DeliveryAccepted(s: State, h: Happening) {
    h.Settlement? && h.outcome == Delivered ==> Acceptance(h.row, h.worker, h.position) in s.history
  }

  function AttemptTerm(h: seq<Happening>, id: nat): nat -> int {
    (k: nat) => if k < |h| && h[k].Settlement? && h[k].row == id then 1 else 0
  }

  function Settlements(h: seq<Happening>, id: nat): int { Sum(AttemptTerm(h, id), |h|) }

  function DeliveredTerm(h: seq<Happening>, worker: nat): nat -> int {
    (k: nat) => if k < |h| && h[k].Settlement? && h[k].worker == worker && h[k].outcome == Delivered then 1 else 0
  }

  function DeliveriesOf(h: seq<Happening>, worker: nat): int { Sum(DeliveredTerm(h, worker), |h|) }

  // A worker's last word on a row. A delivery is final; a dead letter may be taken up again by an administrator.
  predicate Ended(status: RowStatus) { status in {Delivered, DeadLetter} }

  // A delivery decides its row.
  ghost predicate DecisionOk(s: State, h: Happening) {
    h.Settlement? && h.outcome == Delivered && h.row < |s.rows| ==> s.rows[h.row].status == Delivered
  }

  ghost predicate Decided(s: State, id: nat)
    requires id < |s.rows|
  {
    Ended(s.rows[id].status) ==>
      exists k: nat :: k < |s.history| && s.history[k].Settlement? && s.history[k].row == id && s.history[k].outcome == s.rows[id].status
  }

  ghost predicate WorkersOk(s: State) {
    && (forall w: nat :: w < |s.workers| ==> WorkerOk(s, s.workers[w]) && AcceptedOk(s, w))
    && (forall v, w :: 0 <= v < w < |s.workers| ==> s.workers[v].stamp != s.workers[w].stamp)
  }

  ghost predicate HistoryOk(s: State) {
    && (forall k :: 0 <= k < |s.history| ==> HappeningOk(s, s.history[k]) && DeliveryAccepted(s, s.history[k]))
    && (forall j, k :: 0 <= j < k < |s.history| && s.history[j].Settlement? && s.history[k].Settlement? ==>
          s.history[j].worker != s.history[k].worker || s.history[j].position != s.history[k].position)
  }

  ghost predicate RowsOk(s: State) {
    && (forall id: nat :: id < |s.rows| ==> RowOk(s.rows[id]) && Decided(s, id))
    && (forall k :: 0 <= k < |s.history| ==> DecisionOk(s, s.history[k]))
  }

  ghost predicate CountsOk(s: State) {
    && (forall id: nat :: id < |s.rows| ==> s.rows[id].attempts == Settlements(s.history, id))
    && (forall w: nat :: w < |s.workers| ==> s.workers[w].delivered == DeliveriesOf(s.history, w))
  }

  ghost predicate Inv(s: State) {
    WorkersOk(s) && HistoryOk(s) && RowsOk(s) && CountsOk(s)
  }

  lemma SettlementsAppend(h: seq<Happening>, e: Happening, id: nat)
    ensures Settlements(h + [e], id) == Settlements(h, id) + if e.Settlement? && e.row == id then 1 else 0
  {
    SumSame(AttemptTerm(h, id), AttemptTerm(h + [e], id), |h|);
  }

  lemma DeliveriesAppend(h: seq<Happening>, e: Happening, worker: nat)
    ensures DeliveriesOf(h + [e], worker)
            == DeliveriesOf(h, worker) + if e.Settlement? && e.worker == worker && e.outcome == Delivered then 1 else 0
  {
    SumSame(DeliveredTerm(h, worker), DeliveredTerm(h + [e], worker), |h|);
  }

  // A row or worker that is not in the history yet has no settlements.
  lemma NothingYet(s: State)
    requires HistoryOk(s)
    ensures Settlements(s.history, |s.rows|) == 0 && DeliveriesOf(s.history, |s.workers|) == 0
  {
    forall k: nat | k < |s.history| ensures AttemptTerm(s.history, |s.rows|)(k) == 0 && DeliveredTerm(s.history, |s.workers|)(k) == 0 {
      assert HappeningOk(s, s.history[k]);
    }
    SumZero(AttemptTerm(s.history, |s.rows|), |s.history|);
    SumZero(DeliveredTerm(s.history, |s.workers|), |s.history|);
  }

  // ---- steps that settle nothing ----

  // The history keeps its meaning when rows keep their final status and workers only go forward.
  lemma SameHistory(s: State, s': State)
    requires HistoryOk(s) && s'.history == s.history && |s.rows| <= |s'.rows| && |s.workers| <= |s'.workers|
    requires forall w :: 0 <= w < |s.workers| ==> Forward(s.workers[w], s'.workers[w])
    ensures HistoryOk(s')
  {
    forall k | 0 <= k < |s'.history| ensures HappeningOk(s', s'.history[k]) && DeliveryAccepted(s', s'.history[k]) {
      assert HappeningOk(s, s.history[k]) && DeliveryAccepted(s, s.history[k]);
      assert Forward(s.workers[s.history[k].worker], s'.workers[s.history[k].worker]);
    }
  }

  ghost predicate Forward(w: Worker, w': Worker) {
    && w'.stamp == w.stamp && w.batch <= w'.batch
    && (w'.cursor > w.cursor || (w'.cursor == w.cursor && (w.phase in {Accepted, Rejected} ==> w'.phase in {Accepted, Rejected})))
  }

  // A row after a step that settles nothing.
  ghost predicate Undecided(r: Row, r': Row) {
    RowOk(r') && r'.attempts == r.attempts && (r' == r || (r.status != Delivered && !Ended(r'.status)))
  }

  lemma SameRows(s: State, s': State)
    requires RowsOk(s) && s'.history == s.history && |s.rows| <= |s'.rows|
    requires forall k :: 0 <= k < |s.history| ==> s.history[k].row < |s.rows|
    requires forall id :: 0 <= id < |s.rows| ==> Undecided(s.rows[id], s'.rows[id])
    requires forall id :: |s.rows| <= id < |s'.rows| ==> RowOk(s'.rows[id]) && !Ended(s'.rows[id].status)
    ensures RowsOk(s')
  {
    forall id: nat | id < |s'.rows| ensures RowOk(s'.rows[id]) && Decided(s', id) {
      if id < |s.rows| {
        assert RowOk(s.rows[id]) && Decided(s, id);
      }
    }
    forall k | 0 <= k < |s'.history| ensures DecisionOk(s', s'.history[k]) {
      assert DecisionOk(s, s.history[k]);
    }
  }

  lemma HistoryRowsExist(s: State)
    requires HistoryOk(s)
    ensures forall k :: 0 <= k < |s.history| ==> s.history[k].row < |s.rows|
  {
    forall k | 0 <= k < |s.history| ensures s.history[k].row < |s.rows| {
      assert HappeningOk(s, s.history[k]);
    }
  }

  // A step of one worker that leaves the history alone.
  lemma QuietStep(s: State, s': State, id: nat)
    requires Inv(s) && id < |s.workers| && s'.history == s.history && |s'.rows| == |s.rows|
    requires |s'.workers| == |s.workers| && s'.workers == s.workers[id := s'.workers[id]] && Forward(s.workers[id], s'.workers[id])
    requires s'.workers[id].delivered == s.workers[id].delivered
    requires WorkerOk(s', s'.workers[id]) && s'.workers[id].phase != Accepted
    requires forall r :: 0 <= r < |s.rows| ==> Undecided(s.rows[r], s'.rows[r])
    ensures Inv(s')
  {
    HistoryRowsExist(s);
    SameHistory(s, s');
    SameRows(s, s');
    forall w: nat | w < |s'.workers| ensures WorkerOk(s', s'.workers[w]) && AcceptedOk(s', w) {
      if w != id {
        assert WorkerOk(s, s.workers[w]) && AcceptedOk(s, w);
      }
    }
  }

  lemma EnqueueKeepsInv(s: State, c: Call)
    requires Inv(s) && c.EnqueueCall?
    ensures Inv(Apply(s, c))
  {
    var s' := Apply(s, c);
    HistoryRowsExist(s);
    SameHistory(s, s');
    SameRows(s, s');
    NothingYet(s);
    forall w: nat | w < |s'.workers| ensures WorkerOk(s', s'.workers[w]) && AcceptedOk(s', w) {
      assert WorkerOk(s, s.workers[w]) && AcceptedOk(s, w);
    }
  }

  lemma StartKeepsInv(s: State, c: Call)
    requires Inv(s) && c.StartCall?
    ensures Inv(Start(s, c))
  {
    var s' := Start(s, c);
    if s' != s {
      HistoryRowsExist(s);
      SameHistory(s, s');
      forall id | 0 <= id < |s.rows| ensures Undecided(s.rows[id], s'.rows[id]) {
        assert RowOk(s.rows[id]);
      }
      SameRows(s, s');
      NothingYet(s);
      forall w: nat | w < |s'.workers| ensures WorkerOk(s', s'.workers[w]) && AcceptedOk(s', w) {
        if w < |s.workers| {
          assert WorkerOk(s, s.workers[w]) && AcceptedOk(s, w);
        }
      }
    }
  }

  lemma ReadKeepsInv(s: State, c: Call)
    requires Inv(s) && c.ReadCall?
    ensures Inv(Read(s, c))
  {
    var s' := Read(s, c);
    if s' != s {
      var w := s'.workers[c.worker];
      assert WorkerOk(s', w) by {
        assert WorkerOk(s, s.workers[c.worker]);
      }
      QuietStep(s, s', c.worker);
    }
  }

  lemma {:induction false} ClaimKeepsInv(s: State, c: Call)
    requires Inv(s) && c.ClaimCall?
    ensures Inv(Claim(s, c))
  {
    var s' := Claim(s, c);
    if s' != s {
      assert WorkerOk(s, s.workers[c.worker]);
      QuietStep(s, s', c.worker);
    }
  }

  // A review touches one row and no worker.
  lemma ReviewKeepsInv(s: State, c: Call)
    requires Inv(s) && c.ReviewCall?
    ensures Inv(ReviewRow(s, c))
  {
    var s' := ReviewRow(s, c);
    HistoryRowsExist(s);
    SameHistory(s, s');
    forall id | 0 <= id < |s.rows| ensures Undecided(s.rows[id], s'.rows[id]) {
      assert RowOk(s.rows[id]);
    }
    SameRows(s, s');
    forall w: nat | w < |s'.workers| ensures WorkerOk(s', s'.workers[w]) && AcceptedOk(s', w) {
      assert WorkerOk(s, s.workers[w]) && AcceptedOk(s, w);
    }
  }

  // The adapter accepted: the worker holds the acceptance, and the history records it.
  ghost predicate Accepts(s: State, s': State, id: nat) {
    && AtRow(s, id) && s.workers[id].phase == Claimed
    && s' == s.(workers := s.workers[id := s.workers[id].(phase := Outbox.Accepted)],
                history := s.history + [Acceptance(Current(s.workers[id]).row, id, s.workers[id].cursor)])
  }

  lemma AcceptKeepsHistory(s: State, s': State, id: nat)
    requires WorkersOk(s) && HistoryOk(s) && Accepts(s, s', id)
    ensures HistoryOk(s')
  {
    assert WorkerOk(s, s.workers[id]);
    forall k | 0 <= k < |s'.history| ensures HappeningOk(s', s'.history[k]) && DeliveryAccepted(s', s'.history[k]) {
      if k < |s.history| {
        assert HappeningOk(s, s.history[k]) && DeliveryAccepted(s, s.history[k]);
      }
    }
  }

  lemma AcceptKeepsRows(s: State, s': State, id: nat)
    requires RowsOk(s) && Accepts(s, s', id)
    ensures RowsOk(s')
  {
    forall k | 0 <= k < |s'.history| ensures DecisionOk(s', s'.history[k]) {
      if k < |s.history| {
        assert DecisionOk(s, s.history[k]);
      }
    }
    assert forall k: nat :: k < |s.history| ==> s'.history[k] == s.history[k];
    forall r: nat | r < |s'.rows| ensures RowOk(s'.rows[r]) && Decided(s', r) {
      assert RowOk(s.rows[r]) && Decided(s, r);
    }
  }

  lemma AcceptKeepsInv(s: State, s': State, id: nat)
    requires Inv(s) && Accepts(s, s', id)
    ensures Inv(s')
  {
    AcceptKeepsHistory(s, s', id);
    AcceptKeepsRows(s, s', id);
    hide HistoryOk, RowsOk;
    var h := s'.history[|s.history|];
    forall w: nat | w < |s'.workers| ensures WorkerOk(s', s'.workers[w]) && AcceptedOk(s', w) {
      assert WorkerOk(s, s.workers[w]) && AcceptedOk(s, w);
    }
    forall r: nat | r < |s'.rows| ensures s'.rows[r].attempts == Settlements(s'.history, r) {
      SettlementsAppend(s.history, h, r);
    }
    forall w: nat | w < |s'.workers| ensures s'.workers[w].delivered == DeliveriesOf(s'.history, w) {
      DeliveriesAppend(s.history, h, w);
    }
  }

  lemma DeliverKeepsInv(s: State, c: Call)
    requires Inv(s) && c.DeliverCall?
    ensures Inv(Deliver(s, c))
  {
    var s' := Deliver(s, c);
    if s' != s {
      assert WorkerOk(s, s.workers[c.worker]);
      if c.accepted {
        AcceptKeepsInv(s, s', c.worker);
      } else {
        QuietStep(s, s', c.worker);
      }
    }
  }

  // ---- settling ----

  // A worker settles the row of its cursor: the row, the worker's advance and the record of it.
  ghost predicate Settles(s: State, s': State, id: nat, outcome: RowStatus) {
    && AtRow(s, id) && |s'.rows| == |s.rows| && |s'.workers| == |s.workers| && s.workers[id].phase in {Accepted, Rejected} && outcome != Processing
    && var w := s.workers[id];
       var row := Current(w).row;
       && Fenced(s.rows[row], w.stamp)
       && s'.rows == s.rows[row := s'.rows[row]]
       && s'.rows[row].status == outcome && s'.rows[row].lockedAt == None && s'.rows[row].attempts == s.rows[row].attempts + 1
       && s'.workers == s.workers[id := s'.workers[id]]
       && s'.workers[id].stamp == w.stamp && s'.workers[id].batch == w.batch
       && s'.workers[id].phase == Idle && s'.workers[id].cursor == w.cursor + 1
       && s'.workers[id].delivered == w.delivered + (if outcome == Delivered then 1 else 0)
       && (outcome == Delivered ==> w.phase == Accepted)
       && s'.history == s.history + [Settlement(row, id, w.cursor, outcome)]
  }

  lemma SettleKeepsHistory(s: State, s': State, id: nat, outcome: RowStatus)
    requires Inv(s) && Settles(s, s', id, outcome)
    ensures HistoryOk(s')
  {
    var w, h := s.workers[id], s'.history[|s.history|];
    assert WorkerOk(s, w) && AcceptedOk(s, id);
    forall k | 0 <= k < |s'.history| ensures HappeningOk(s', s'.history[k]) && DeliveryAccepted(s', s'.history[k]) {
      if k < |s.history| {
        assert s'.history[k] == s.history[k];
        assert HappeningOk(s, s.history[k]) && DeliveryAccepted(s, s.history[k]);
      }
    }
    forall k | 0 <= k < |s.history| && s.history[k].Settlement?
      ensures s.history[k].worker != id || s.history[k].position != w.cursor
    {
      assert HappeningOk(s, s.history[k]);
    }
  }

  lemma SettleKeepsRows(s: State, s': State, id: nat, outcome: RowStatus)
    requires Inv(s) && Settles(s, s', id, outcome)
    ensures RowsOk(s')
  {
    var row := Current(s.workers[id]).row;
    forall k | 0 <= k < |s'.history| ensures DecisionOk(s', s'.history[k]) {
      if k < |s.history| {
        assert s'.history[k] == s.history[k];
        assert HappeningOk(s, s.history[k]) && DecisionOk(s, s.history[k]);
      }
    }
    forall r: nat | r < |s'.rows| ensures RowOk(s'.rows[r]) && Decided(s', r) {
      if r == row {
        assert s'.history[|s.history|].row == row;
      } else {
        assert RowOk(s.rows[r]) && Decided(s, r);
        assert forall k: nat :: k < |s.history| ==> s'.history[k] == s.history[k];
      }
    }
  }

  lemma SettleKeepsInv(s: State, s': State, id: nat, outcome: RowStatus)
    requires Inv(s) && Settles(s, s', id, outcome)
    ensures Inv(s')
  {
    SettleKeepsHistory(s, s', id, outcome);
    SettleKeepsRows(s, s', id, outcome);
    var h := s'.history[|s.history|];
    forall w: nat | w < |s'.workers| ensures WorkerOk(s', s'.workers[w]) && AcceptedOk(s', w) {
      assert WorkerOk(s, s.workers[w]) && AcceptedOk(s, w);
    }
    forall r: nat | r < |s'.rows| ensures s'.rows[r].attempts == Settlements(s'.history, r) {
      SettlementsAppend(s.history, h, r);
    }
    forall w: nat | w < |s'.workers| ensures s'.workers[w].delivered == DeliveriesOf(s'.history, w) {
      DeliveriesAppend(s.history, h, w);
    }
  }

  lemma {:induction false} CompleteKeepsInv(s: State, c: Call)
    requires Inv(s) && c.CompleteCall?
    ensures Inv(Complete(s, c))
  {
    var s' := Complete(s, c);
    if s' != s {
      assert WorkerOk(s, s.workers[c.worker]);
      if s'.history == s.history {
        QuietStep(s, s', c.worker);
      } else {
        SettleKeepsInv(s, s', c.worker, Delivered);
      }
    }
  }

  lemma FailKeepsInv(s: State, c: Call)
    requires Inv(s) && c.FailCall?
    ensures Inv(Fail(s, c))
  {
    var s' := Fail(s, c);
    if s' != s {
      var w := s.workers[c.worker];
      assert WorkerOk(s, w);
      if s'.history == s.history {
        QuietStep(s, s', c.worker);
      } else {
        SettleKeepsInv(s, s', c.worker, RetryStatus(Current(w).attempts, Current(w).maxAttempts));
      }
    }
  }

  lemma ApplyKeepsInv(s: State, c: Call)
    requires Inv(s)
    ensures Inv(Apply(s, c))
  {
    if c.EnqueueCall? { EnqueueKeepsInv(s, c); }
    else if c.StartCall? { StartKeepsInv(s, c); }
    else if c.ReadCall? { ReadKeepsInv(s, c); }
    else if c.ClaimCall? { ClaimKeepsInv(s, c); }
    else if c.DeliverCall? { DeliverKeepsInv(s, c); }
    else if c.CompleteCall? { CompleteKeepsInv(s, c); }
    else if c.FailCall? { FailKeepsInv(s, c); }
    else { ReviewKeepsInv(s, c); }
  }

  lemma {:induction false} RunKeepsInv(calls: seq<Call>)
    ensures Inv(Run(EMPTY, calls))
  {
    if calls != [] {
      RunKeepsInv(calls[..|calls| - 1]);
      ApplyKeepsInv(Run(EMPTY, calls[..|calls| - 1]), calls[|calls| - 1]);
    }
  }

  // ---- theorems over every run ----

  // No worker settles a row twice; a row's attempts are its settlements; a worker reports exactly what it delivered.
  lemma {:induction false} ClaimsAreSettledOnce(calls: seq<Call>)
    ensures var s := Run(EMPTY, calls);
            && (forall j, k :: 0 <= j < k < |s.history| && s.history[j].Settlement? && s.history[k].Settlement? ==>
                  s.history[j].worker != s.history[k].worker || s.history[j].row != s.history[k].row)
            && (forall id: nat :: id < |s.rows| ==> s.rows[id].attempts == Settlements(s.history, id))
            && (forall w: nat :: w < |s.workers| ==> s.workers[w].delivered == DeliveriesOf(s.history, w))
  {
    RunKeepsInv(calls);
    var s := Run(EMPTY, calls);
    forall j, k | 0 <= j < k < |s.history| && s.history[j].Settlement? && s.history[k].Settlement?
                    && s.history[j].worker == s.history[k].worker
      ensures s.history[j].row != s.history[k].row
    {
      assert HappeningOk(s, s.history[j]) && HappeningOk(s, s.history[k]);
      assert WorkerOk(s, s.workers[s.history[j].worker]);
    }
  }

  // A delivered event was accepted by the adapter, from the worker that settled it, in that very claim.
  lemma {:induction false} DeliveredWasAccepted(calls: seq<Call>, id: nat) returns (worker: nat, position: nat)
    requires id < |Run(EMPTY, calls).rows| && Run(EMPTY, calls).rows[id].status == Delivered
    ensures Acceptance(id, worker, position) in Run(EMPTY, calls).history
    ensures Settlement(id, worker, position, Delivered) in Run(EMPTY, calls).history
  {
    RunKeepsInv(calls);
    var s := Run(EMPTY, calls);
    assert Decided(s, id);
    var k: nat :| k < |s.history| && s.history[k].Settlement? && s.history[k].row == id && s.history[k].outcome == s.rows[id].status;
    assert DeliveryAccepted(s, s.history[k]);
    worker, position := s.history[k].worker, s.history[k].position;
  }

  // A row changes in four ways only: its lease ran out, a worker claims it, the worker whose stamp is on it settles it, or
  // an administrator who loaded it as it is puts it back in the queue or sets it aside.
  lemma RowsChangeOnlyUnderTheirStamp(s: State, c: Call, id: nat)
    requires Inv(s) && id < |s.rows| && Apply(s, c).rows[id] != s.rows[id]
    ensures var r, r' := s.rows[id], Apply(s, c).rows[id];
            || (&& c.StartCall? && r.lockedAt.Some? && r.lockedAt.value + LEASE_MILLISECONDS < c.now
                && r' == r.(status := Pending, lockedAt := None, version := r.version + 1))
            || (&& c.ClaimCall? && c.worker < |s.workers| && r.status == Pending
                && r' == r.(status := Processing, lockedAt := Some(s.workers[c.worker].stamp), version := r.version + 1))
            || (&& (c.CompleteCall? || c.FailCall?) && c.worker < |s.workers| && r.status == Processing
                && r.lockedAt == Some(s.workers[c.worker].stamp)
                && r'.attempts == r.attempts + 1 && r'.lockedAt == None && r'.maxAttempts == r.maxAttempts
                && r'.status in {Pending, Delivered, DeadLetter} && (r'.status == Delivered <==> c.CompleteCall?))
            || (&& c.ReviewCall? && c.row == id && Reviewable(r, c.version) && r.lockedAt.None?
                && r'.status == (if c.retry then Pending else Ignored)
                && r' == r.(status := r'.status, nextAttemptAt := r'.nextAttemptAt, version := r.version + 1))
  {
  }

  // The review that is accepted, of this row.
  ghost predicate Reviews(s: State, c: Call, id: nat) {
    c.ReviewCall? && c.row == id && id < |s.rows| && Reviewable(s.rows[id], c.version)
  }

  ghost predicate Unreviewed(s: State, calls: seq<Call>, id: nat) {
    forall n :: 0 <= n < |calls| ==> !Reviews(Run(s, calls[..n]), calls[n], id)
  }

  lemma UnreviewedExtended(s: State, calls: seq<Call>, id: nat)
    requires calls != []
    ensures var before := calls[..|calls| - 1];
            Unreviewed(s, calls, id) <==> Unreviewed(s, before, id) && !Reviews(Run(s, before), calls[|calls| - 1], id)
  {
    hide Run, Reviews;
    var before := calls[..|calls| - 1];
    assert forall n :: 0 <= n < |before| ==> before[..n] == calls[..n] && before[n] == calls[n];
  }

  // Delivered and ignored rows never change again; a dead letter changes exactly when an administrator's review of it
  // is accepted.
  lemma {:induction false} FinalRowsChangeOnlyByReview(s: State, calls: seq<Call>, id: nat)
    requires Inv(s) && id < |s.rows| && s.rows[id].status in {Delivered, Ignored, DeadLetter}
    ensures var s' := Run(s, calls);
            && Inv(s') && id < |s'.rows| && s'.rows[id].version >= s.rows[id].version
            && (s.rows[id].status != DeadLetter ==> s'.rows[id] == s.rows[id])
            && (s'.rows[id] == s.rows[id] <==> Unreviewed(s, calls, id))
  {
    hide Apply, Reviews, Inv;
    if calls == [] {
    } else {
      var before, c := Run(s, calls[..|calls| - 1]), calls[|calls| - 1];
      FinalRowsChangeOnlyByReview(s, calls[..|calls| - 1], id);
      ApplyKeepsInv(before, c);
      VersionsRise(before, c, id);
      UnreviewedExtended(s, calls, id);
      if before.rows[id] == s.rows[id] {
        FinalRowStays(before, c, id);
      }
    }
  }

  lemma FinalRowStays(s: State, c: Call, id: nat)
    requires Inv(s) && id < |s.rows| && s.rows[id].status in {Delivered, Ignored, DeadLetter}
    ensures id < |Apply(s, c).rows| && (Apply(s, c).rows[id] == s.rows[id] <==> !Reviews(s, c, id))
    ensures s.rows[id].status != DeadLetter ==> Apply(s, c).rows[id] == s.rows[id]
  {
    assert RowOk(s.rows[id]);
  }

  // A row's version rises with every change.
  lemma VersionsRise(s: State, c: Call, id: nat)
    requires id < |s.rows|
    ensures id < |Apply(s, c).rows| && Apply(s, c).rows[id].version >= s.rows[id].version
    ensures Apply(s, c).rows[id].version == s.rows[id].version ==> Apply(s, c).rows[id] == s.rows[id]
  {
  }

  lemma {:induction false} VersionsNeverFall(s: State, calls: seq<Call>, id: nat)
    requires id < |s.rows|
    ensures id < |Run(s, calls).rows| && Run(s, calls).rows[id].version >= s.rows[id].version
  {
    hide Apply;
    if calls != [] {
      VersionsNeverFall(s, calls[..|calls| - 1], id);
      VersionsRise(Run(s, calls[..|calls| - 1]), calls[|calls| - 1], id);
    }
  }

  // Of two administrators who loaded a row in one state only one can decide on it, and none once it changed.
  lemma {:induction false} OneReviewPerLoadedRow(s: State, first: Call, calls: seq<Call>, second: Call)
    requires first.ReviewCall? && Reviews(s, first, first.row) && second.ReviewCall? && second.row == first.row && second.version == first.version
    ensures ReviewRow(Run(ReviewRow(s, first), calls), second) == Run(ReviewRow(s, first), calls)
    ensures ReviewRow(s, first).reviews == s.reviews + [Review(first.row, s.rows[first.row].status, if first.retry then Pending else Ignored)]
  {
    VersionsNeverFall(ReviewRow(s, first), calls, first.row);
    hide Run;
  }

  // ---- the attempt limit ----

  // A limit of zero allows one attempt.
  function Allowed(r: Row): nat { if r.maxAttempts == 0 then 1 else r.maxAttempts }

  // No more attempts than allowed, and fewer while there may be another.
  ghost predicate RowWithinLimit(r: Row) {
    r.attempts <= Allowed(r) && (r.status in {Pending, Processing} ==> r.attempts < Allowed(r))
  }

  ghost predicate WithinLimit(s: State) {
    forall id :: 0 <= id < |s.rows| ==> RowWithinLimit(s.rows[id])
  }

  // A failure, under the worker's own stamp, that has attempts left by the worker's reading and none left by the row.
  ghost predicate Overruns(s: State, c: Call) {
    && c.FailCall? && AtRow(s, c.worker) && s.workers[c.worker].phase == Rejected
    && var e := Current(s.workers[c.worker]);
       var r := s.rows[e.row];
       && Fenced(r, s.workers[c.worker].stamp)
       && e.attempts + 1 < e.maxAttempts && r.attempts + 1 >= Allowed(r)
  }

  // An administrator puts a row back in the queue that has no attempts left.
  ghost predicate RetriesSpent(s: State, c: Call) {
    c.ReviewCall? && c.retry && Reviews(s, c, c.row) && s.rows[c.row].attempts >= Allowed(s.rows[c.row])
  }

  lemma StepKeepsLimitExactly(s: State, c: Call)
    requires WithinLimit(s)
    ensures WithinLimit(Apply(s, c)) <==> !Overruns(s, c) && !RetriesSpent(s, c)
  {
    var s' := Apply(s, c);
    if Overruns(s, c) {
      assert !RowWithinLimit(s'.rows[Current(s.workers[c.worker]).row]);
    } else if RetriesSpent(s, c) {
      assert !RowWithinLimit(s'.rows[c.row]);
    } else {
      forall id | 0 <= id < |s'.rows| ensures RowWithinLimit(s'.rows[id]) {
        if id < |s.rows| {
          assert RowWithinLimit(s.rows[id]);
        }
      }
    }
  }

  ghost predicate WithinLimitThroughout(calls: seq<Call>) {
    forall n :: 0 <= n <= |calls| ==> WithinLimit(Run(EMPTY, calls[..n]))
  }

  ghost predicate NothingPassesTheLimit(calls: seq<Call>) {
    forall n :: 0 <= n < |calls| ==> !Overruns(Run(EMPTY, calls[..n]), calls[n]) && !RetriesSpent(Run(EMPTY, calls[..n]), calls[n])
  }

  lemma ThroughoutExtended(calls: seq<Call>)
    requires calls != []
    ensures WithinLimitThroughout(calls) <==> WithinLimitThroughout(calls[..|calls| - 1]) && WithinLimit(Run(EMPTY, calls))
  {
    hide Run, WithinLimit;
    var before := calls[..|calls| - 1];
    assert calls[..|calls|] == calls;
    assert forall n :: 0 <= n <= |before| ==> before[..n] == calls[..n];
  }

  lemma NothingPassesExtended(calls: seq<Call>)
    requires calls != []
    ensures var before, c := calls[..|calls| - 1], calls[|calls| - 1];
            NothingPassesTheLimit(calls)
            <==> NothingPassesTheLimit(before) && !Overruns(Run(EMPTY, before), c) && !RetriesSpent(Run(EMPTY, before), c)
  {
    hide Run, Overruns, RetriesSpent;
    var before := calls[..|calls| - 1];
    assert forall n :: 0 <= n < |before| ==> before[..n] == calls[..n] && before[n] == calls[n];
  }

  // Over every run: all rows are within their limits all the way exactly when no step overran and no row without
  // attempts left was put back by an administrator.
  lemma {:induction false} LimitsHoldExactlyWithoutOverruns(calls: seq<Call>)
    ensures WithinLimitThroughout(calls) <==> NothingPassesTheLimit(calls)
  {
    if calls == [] {
      EmptyWithinLimit();
    } else {
      hide Apply, WithinLimit, Overruns, RetriesSpent, WithinLimitThroughout, NothingPassesTheLimit;
      var before := calls[..|calls| - 1];
      LimitsHoldExactlyWithoutOverruns(before);
      ThroughoutExtended(calls);
      NothingPassesExtended(calls);
      if WithinLimitThroughout(before) {
        ThroughoutIsNow(before);
        StepKeepsLimitExactly(Run(EMPTY, before), calls[|calls| - 1]);
      }
    }
  }

  lemma ThroughoutIsNow(calls: seq<Call>)
    requires WithinLimitThroughout(calls)
    ensures WithinLimit(Run(EMPTY, calls))
  {
    hide Run, WithinLimit;
    assert calls[..|calls|] == calls;
  }

  lemma EmptyWithinLimit()
    ensures WithinLimit(Run(EMPTY, []))
  {
  }

  // A reading carries its row's limit, and attempts the row had once.
  ghost predicate ReadingsOk(s: State) {
    forall w, k :: 0 <= w < |s.workers| && 0 <= k < |s.workers[w].batch| ==> ReadingOk(s, s.workers[w].batch[k])
  }

  ghost predicate ReadingOk(s: State, e: Reading) {
    e.row < |s.rows| && e.maxAttempts == s.rows[e.row].maxAttempts && e.attempts <= s.rows[e.row].attempts
  }

  lemma ApplyKeepsReadings(s: State, c: Call)
    requires ReadingsOk(s)
    ensures ReadingsOk(Apply(s, c))
  {
    var s' := Apply(s, c);
    forall w, k | 0 <= w < |s'.workers| && 0 <= k < |s'.workers[w].batch| ensures ReadingOk(s', s'.workers[w].batch[k]) {
      if w < |s.workers| && s'.workers[w].batch == s.workers[w].batch {
        assert ReadingOk(s, s.workers[w].batch[k]);
      }
    }
  }

  // In every run, a step that overruns was decided on a reading older than the row, and its row had more than one attempt.
  lemma {:induction false} OverrunsAreStale(calls: seq<Call>, c: Call)
    ensures var s := Run(EMPTY, calls);
            ReadingsOk(s)
            && (Overruns(s, c) ==>
                  var e := Current(s.workers[c.worker]);
                  e.attempts < s.rows[e.row].attempts && s.rows[e.row].maxAttempts > 1)
  {
    hide Apply;
    if calls != [] {
      OverrunsAreStale(calls[..|calls| - 1], calls[|calls| - 1]);
      ApplyKeepsReadings(Run(EMPTY, calls[..|calls| - 1]), calls[|calls| - 1]);
    }
    if Overruns(Run(EMPTY, calls), c) {
      OverrunIsStale(Run(EMPTY, calls), c);
    }
  }

  lemma OverrunIsStale(s: State, c: Call)
    requires ReadingsOk(s) && Overruns(s, c)
    ensures var e := Current(s.workers[c.worker]);
            e.attempts < s.rows[e.row].attempts && s.rows[e.row].maxAttempts > 1
  {
    assert ReadingOk(s, Current(s.workers[c.worker]));
  }

  // ---- the wait before the next attempt ----

  // Minutes to wait by the attempts that were read.
  const WAITS := [1, 2, 4, 8, 16, 32, 64, 128, 256]

  // A failure under the worker's own stamp.
  ghost predicate Fails(s: State, c: Call) {
    && c.FailCall? && AtRow(s, c.worker) && s.workers[c.worker].phase == Rejected
    && s.rows[Current(s.workers[c.worker]).row].status == Processing
    && s.rows[Current(s.workers[c.worker]).row].lockedAt == Some(s.workers[c.worker].stamp)
  }

  // With attempts left the row is queued for one minute after the first failure, and so on up the list, 360 minutes from
  // the tenth on; without, it is given up at the moment of its failure.
  lemma FailuresWait(s: State, c: Call)
    requires Fails(s, c)
    ensures var e := Current(s.workers[c.worker]);
            var r := Apply(s, c).rows[e.row];
            if e.attempts + 1 < e.maxAttempts
            then r.status == Pending && r.nextAttemptAt == c.at + (if e.attempts < 9 then WAITS[e.attempts] else 360) * 60_000
            else r.status == DeadLetter && r.nextAttemptAt == c.at
  {
    var n := Current(s.workers[c.worker]).attempts;
    PowersOfTwo();
    if n >= 9 {
      PowersGrow(9, n);
    }
  }

  lemma PowersOfTwo()
    ensures Pow2(0) == 1 && Pow2(1) == 2 && Pow2(2) == 4 && Pow2(3) == 8 && Pow2(4) == 16 && Pow2(5) == 32 && Pow2(6) == 64
    ensures Pow2(7) == 128 && Pow2(8) == 256 && Pow2(9) == 512
  {
    assert Pow2(4) == 2 * Pow2(3) == 16;
    assert Pow2(8) == 2 * Pow2(7) == 4 * Pow2(6) == 8 * Pow2(5) == 16 * Pow2(4);
  }

  lemma {:induction false} PowersGrow(m: nat, n: nat)
    requires m <= n
    ensures Pow2(m) <= Pow2(n)
  {
    if m < n {
      PowersGrow(m, n - 1);
    }
  }

  // Each further failure waits twice as long as the one before, never longer than six hours.
  lemma WaitsDouble(s: State, c: Call, t: State, d: Call)
    requires Fails(s, c) && Fails(t, d)
    requires var e, f := Current(s.workers[c.worker]), Current(t.workers[d.worker]);
             f.attempts == e.attempts + 1 && f.attempts + 1 < f.maxAttempts && e.attempts + 1 < e.maxAttempts
    ensures var e, f := Current(s.workers[c.worker]), Current(t.workers[d.worker]);
            var wait, next := Apply(s, c).rows[e.row].nextAttemptAt - c.at, Apply(t, d).rows[f.row].nextAttemptAt - d.at;
            next == if 2 * wait < 21_600_000 then 2 * wait else 21_600_000
  {
    FailuresWait(s, c);
    FailuresWait(t, d);
    hide Apply;
  }

  // A dead letter has no attempts left.
  ghost predicate SpentOk(s: State) {
    forall id :: 0 <= id < |s.rows| && s.rows[id].status == DeadLetter ==> s.rows[id].attempts >= Allowed(s.rows[id])
  }

  lemma ApplyKeepsSpent(s: State, c: Call)
    requires SpentOk(s) && ReadingsOk(s)
    ensures SpentOk(Apply(s, c))
  {
    if c.FailCall? && AtRow(s, c.worker) {
      assert ReadingOk(s, Current(s.workers[c.worker]));
    }
  }

  // In every run: a retry of a dead letter is of a row without attempts left, so it lets the row pass its limit.
  lemma {:induction false} DeadLettersAreSpent(calls: seq<Call>, c: Call)
    ensures var s := Run(EMPTY, calls);
            && SpentOk(s) && ReadingsOk(s)
            && (c.ReviewCall? && c.retry && Reviews(s, c, c.row) && s.rows[c.row].status == DeadLetter ==>
                  RetriesSpent(s, c) && !WithinLimit(Apply(s, c)))
  {
    if calls != [] {
      hide Apply, RetriesSpent, Reviews, WithinLimit;
      var before := Run(EMPTY, calls[..|calls| - 1]);
      DeadLettersAreSpent(calls[..|calls| - 1], c);
      ApplyKeepsSpent(before, calls[|calls| - 1]);
      ApplyKeepsReadings(before, calls[|calls| - 1]);
    }
    SpentRetryPassesTheLimit(Run(EMPTY, calls), c);
  }

  lemma SpentRetryPassesTheLimit(s: State, c: Call)
    requires SpentOk(s)
    ensures c.ReviewCall? && c.retry && Reviews(s, c, c.row) && s.rows[c.row].status == DeadLetter ==>
              RetriesSpent(s, c) && !WithinLimit(Apply(s, c))
  {
    if c.ReviewCall? && c.retry && Reviews(s, c, c.row) {
      assert Apply(s, c).rows[c.row].status == Pending;
      assert RetriesSpent(s, c) ==> !RowWithinLimit(Apply(s, c).rows[c.row]);
    }
  }

  lemma {:induction false} RunInTwo(s: State, a: seq<Call>, b: seq<Call>)
    ensures Run(s, a + b) == Run(Run(s, a), b)
  {
    if b == [] {
      assert a + b == a;
    } else {
      assert (a + b)[..|a + b| - 1] == a + b[..|b| - 1];
      RunInTwo(s, a, b[..|b| - 1]);
    }
  }

  lemma RunNone(s: State)
    ensures Run(s, []) == s
  {
  }

  lemma {:induction false} RunOne(s: State, calls: seq<Call>, c: Call)
    ensures Run(s, calls + [c]) == Apply(Run(s, calls), c)
  {
    assert (calls + [c])[..|calls + [c]| - 1] == calls;
  }

  const QUEUED := Row(Pending, 0, 2, 0, None, 0)

  function AfterStart(stamp: int, batch: seq<Reading>): Worker { Worker(stamp, batch, 0, Idle, 0, 0, 0) }

  // Two workers that read the same row before either claims it.
  const STARTED := [EnqueueCall(2, 0), StartCall(1), StartCall(2)]
  const BOTH_READ := STARTED + [ReadCall(0, [0])] + [ReadCall(1, [0])]

  lemma BothStarted()
    ensures Run(EMPTY, STARTED) == State([QUEUED], [AfterStart(1, []), AfterStart(2, [])], [], [])
  {
    assert STARTED == [] + [EnqueueCall(2, 0)] + [StartCall(1)] + [StartCall(2)];
    RunOne(EMPTY, [], EnqueueCall(2, 0));
    RunOne(EMPTY, [] + [EnqueueCall(2, 0)], StartCall(1));
    RunOne(EMPTY, [] + [EnqueueCall(2, 0)] + [StartCall(1)], StartCall(2));
  }

  lemma ReadsQueued(s: State, w: nat)
    requires |s.rows| == 1 && s.rows[0].status == Pending && w < |s.workers|
    requires s.workers[w] == AfterStart(s.workers[w].stamp, []) && s.workers[w].stamp >= s.rows[0].nextAttemptAt
    ensures Read(s, ReadCall(w, [0]))
            == s.(workers := s.workers[w := AfterStart(s.workers[w].stamp, [Reading(0, s.rows[0].attempts, s.rows[0].maxAttempts)])])
  {
    assert Readings(s, [0]) == [Reading(0, s.rows[0].attempts, s.rows[0].maxAttempts)];
  }

  lemma BothRead()
    ensures Run(EMPTY, BOTH_READ) == State([QUEUED], [AfterStart(1, [Reading(0, 0, 2)]), AfterStart(2, [Reading(0, 0, 2)])], [], [])
  {
    BothStarted();
    RunOne(EMPTY, STARTED, ReadCall(0, [0]));
    RunOne(EMPTY, STARTED + [ReadCall(0, [0])], ReadCall(1, [0]));
    ReadsQueued(Run(EMPTY, STARTED), 0);
    ReadsQueued(Run(EMPTY, STARTED + [ReadCall(0, [0])]), 1);
  }

  // A worker that claims its row and fails on it, at moment `at`.
  function Attempt(worker: nat, at: int): seq<Call> { [ClaimCall(worker)] + [DeliverCall(worker, false)] + [FailCall(worker, at)] }

  lemma FailedAttempt(s: State, w: nat, at: int)
    requires AtRow(s, w) && s.workers[w].phase == Idle && s.rows[Current(s.workers[w]).row].status == Pending
    ensures var e := Current(s.workers[w]);
            var r := s.rows[e.row];
            var s' := Fail(Deliver(Claim(s, ClaimCall(w)), DeliverCall(w, false)), FailCall(w, at));
            && s'.rows == s.rows[e.row := Row(RetryStatus(e.attempts, e.maxAttempts), r.attempts + 1, r.maxAttempts,
                                              RetryAt(e.attempts, e.maxAttempts, at), None, r.version + 2)]
            && |s'.workers| == |s.workers| && forall v :: 0 <= v < |s.workers| && v != w ==> s'.workers[v] == s.workers[v]
  {
  }

  lemma AttemptSteps(s: State, w: nat, at: int)
    ensures Run(s, Attempt(w, at)) == Fail(Deliver(Claim(s, ClaimCall(w)), DeliverCall(w, false)), FailCall(w, at))
  {
    hide Claim, Deliver, Fail, Run;
    RunNone(s);
    assert Attempt(w, at) == [] + [ClaimCall(w)] + [DeliverCall(w, false)] + [FailCall(w, at)];
    RunOne(s, [], ClaimCall(w));
    RunOne(s, [] + [ClaimCall(w)], DeliverCall(w, false));
    RunOne(s, [] + [ClaimCall(w)] + [DeliverCall(w, false)], FailCall(w, at));
  }

  // They use up its two attempts between them and leave it in the queue.
  lemma StaleReadingsExceedTheLimit()
    ensures Run(EMPTY, BOTH_READ + Attempt(0, 3) + Attempt(1, 4)).rows
            == [QUEUED.(attempts := 2, nextAttemptAt := 60_004, version := 4)]
    ensures !WithinLimit(Run(EMPTY, BOTH_READ + Attempt(0, 3) + Attempt(1, 4)))
  {
    hide Run, Claim, Deliver, Fail;
    BothRead();
    assert Pow2(0) == 1;
    RunInTwo(EMPTY, BOTH_READ, Attempt(0, 3));
    RunInTwo(EMPTY, BOTH_READ + Attempt(0, 3), Attempt(1, 4));
    var s := Run(EMPTY, BOTH_READ);
    AttemptSteps(s, 0, 3);
    FailedAttempt(s, 0, 3);
    AttemptSteps(Run(s, Attempt(0, 3)), 1, 4);
    FailedAttempt(Run(s, Attempt(0, 3)), 1, 4);
    assert !RowWithinLimit(Run(EMPTY, BOTH_READ + Attempt(0, 3) + Attempt(1, 4)).rows[0]);
  }

  // One attempt is allowed; it fails, an administrator retries the dead letter, and it fails again.
  const FIRST_TIME := [EnqueueCall(1, 0), StartCall(1), ReadCall(0, [0])]
  const SECOND_TIME := [ReviewCall(0, true, 2, 4), StartCall(5), ReadCall(1, [0])]
  const DEAD := Row(DeadLetter, 1, 1, 3, None, 2)

  lemma AfterFirstTime()
    ensures Run(EMPTY, FIRST_TIME) == State([Row(Pending, 0, 1, 0, None, 0)], [AfterStart(1, [Reading(0, 0, 1)])], [], [])
  {
    assert FIRST_TIME == [] + [EnqueueCall(1, 0)] + [StartCall(1)] + [ReadCall(0, [0])];
    RunOne(EMPTY, [], EnqueueCall(1, 0));
    RunOne(EMPTY, [] + [EnqueueCall(1, 0)], StartCall(1));
    RunOne(EMPTY, [] + [EnqueueCall(1, 0)] + [StartCall(1)], ReadCall(0, [0]));
    RunNone(EMPTY);
    hide Run, Read;
    var s := State([Row(Pending, 0, 1, 0, None, 0)], [AfterStart(1, [])], [], []);
    assert Run(EMPTY, [] + [EnqueueCall(1, 0)] + [StartCall(1)]) == s;
    ReadsQueued(s, 0);
  }

  lemma TakenUpAgain(s: State)
    requires s.rows == [DEAD] && |s.workers| == 1 && s.workers[0].stamp == 1
    ensures var s' := Run(s, SECOND_TIME);
            && s'.rows == [DEAD.(status := Pending, nextAttemptAt := 4, version := 3)]
            && |s'.workers| == 2 && s'.workers[1] == AfterStart(5, [Reading(0, 1, 1)])
  {
    assert SECOND_TIME == [] + [ReviewCall(0, true, 2, 4)] + [StartCall(5)] + [ReadCall(1, [0])];
    RunOne(s, [], ReviewCall(0, true, 2, 4));
    RunOne(s, [] + [ReviewCall(0, true, 2, 4)], StartCall(5));
    RunOne(s, [] + [ReviewCall(0, true, 2, 4)] + [StartCall(5)], ReadCall(1, [0]));
    RunNone(s);
    hide Run, Read;
    var started := Run(s, [] + [ReviewCall(0, true, 2, 4)] + [StartCall(5)]);
    assert started.rows == [DEAD.(status := Pending, nextAttemptAt := 4, version := 3)];
    ReadsQueued(started, 1);
  }

  // With every reading fresh, the row has been tried twice.
  lemma RetriesExceedTheLimit()
    ensures Run(EMPTY, FIRST_TIME + Attempt(0, 3) + SECOND_TIME + Attempt(1, 6)).rows == [DEAD.(attempts := 2, nextAttemptAt := 6, version := 5)]
    ensures !WithinLimit(Run(EMPTY, FIRST_TIME + Attempt(0, 3) + SECOND_TIME + Attempt(1, 6)))
  {
    hide Run, Claim, Deliver, Fail, RetryAt;
    AfterFirstTime();
    var first := FIRST_TIME + Attempt(0, 3);
    RunInTwo(EMPTY, FIRST_TIME, Attempt(0, 3));
    RunInTwo(EMPTY, first, SECOND_TIME);
    RunInTwo(EMPTY, first + SECOND_TIME, Attempt(1, 6));
    AttemptSteps(Run(EMPTY, FIRST_TIME), 0, 3);
    FailedAttempt(Run(EMPTY, FIRST_TIME), 0, 3);
    LastAttemptsEndNow(3);
    LastAttemptsEndNow(6);
    OneStampStays(Run(EMPTY, FIRST_TIME), 0, 3);
    TakenUpAgain(Run(EMPTY, first));
    var again := Run(EMPTY, first + SECOND_TIME);
    AttemptSteps(again, 1, 6);
    FailedAttempt(again, 1, 6);
    assert !RowWithinLimit(Run(EMPTY, FIRST_TIME + Attempt(0, 3) + SECOND_TIME + Attempt(1, 6)).rows[0]);
  }

  lemma LastAttemptsEndNow(at: int)
    ensures RetryAt(0, 1, at) == at && RetryAt(1, 1, at) == at
  {
  }

  lemma OneStampStays(s: State, w: nat, at: int)
    requires w < |s.workers|
    ensures var s' := Fail(Deliver(Claim(s, ClaimCall(w)), DeliverCall(w, false)), FailCall(w, at));
            w < |s'.workers| && s'.workers[w].stamp == s.workers[w].stamp
  {
  }
}
