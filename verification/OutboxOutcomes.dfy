// What each step of the event delivery asks for and what it leaves, spelled on the rows and the workers.

module OutboxOutcomes {
  import opened Common
  import opened Outbox

  lemma StartsExactly(s: State, c: Call)
    requires c.StartCall?
    ensures var s' := Apply(s, c);
            if exists w :: 0 <= w < |s.workers| && s.workers[w].stamp == c.now then s' == s
            else
              && s' == s.(rows := s'.rows, workers := s.workers + [Worker(c.now, [], 0, Idle, 0, 0, 0)]) && |s'.rows| == |s.rows|
              && forall i :: 0 <= i < |s.rows| ==>
                   var r := s.rows[i];
                   s'.rows[i] == if r.status == Processing && r.lockedAt.Some? && r.lockedAt.value + 900_000 < c.now
                                 then Row(Pending, r.attempts, r.maxAttempts, r.nextAttemptAt, None, r.version + 1) else r
  {
  }

  // A worker that has read nothing yet may read up to 25 rows, queued and due by its start, none twice.
  ghost predicate MayRead(s: State, c: Call)
    requires c.ReadCall?
  {
    && c.worker < |s.workers| && s.workers[c.worker].batch == [] && s.workers[c.worker].phase == Idle && s.workers[c.worker].cursor == 0
    && |c.selected| <= 25
    && (forall i :: 0 <= i < |c.selected| ==>
          && c.selected[i] < |s.rows| && s.rows[c.selected[i]].status == Pending
          && s.rows[c.selected[i]].nextAttemptAt <= s.workers[c.worker].stamp)
    && (forall i, j :: 0 <= i < j < |c.selected| ==> c.selected[i] != c.selected[j])
  }

  lemma ReadsExactly(s: State, c: Call)
    requires c.ReadCall?
    ensures var s' := Apply(s, c);
            if !MayRead(s, c) then s' == s
            else
              && |s'.workers| == |s.workers|
              && var w, w' := s.workers[c.worker], s'.workers[c.worker];
                 && s' == s.(workers := s.workers[c.worker := w']) && w' == w.(batch := w'.batch) && |w'.batch| == |c.selected|
                 && forall i :: 0 <= i < |c.selected| ==>
                      w'.batch[i] == Reading(c.selected[i], s.rows[c.selected[i]].attempts, s.rows[c.selected[i]].maxAttempts)
  {
    hide Readings;
  }

  // The worker is at this reading of its batch, in this phase.
  ghost predicate IsAt(s: State, id: nat, phase: Phase, e: Reading) {
    && id < |s.workers| && s.workers[id].phase == phase
    && s.workers[id].cursor < |s.workers[id].batch| && s.workers[id].batch[s.workers[id].cursor] == e && e.row < |s.rows|
  }

  lemma ClaimsExactly(s: State, c: Call, e: Reading)
    requires c.ClaimCall?
    ensures !(exists e :: IsAt(s, c.worker, Idle, e)) ==> Apply(s, c) == s
    ensures IsAt(s, c.worker, Idle, e) ==>
              var w, r := s.workers[c.worker], s.rows[e.row];
              Apply(s, c) == if r.status == Pending
                             then s.(rows := s.rows[e.row := Row(Processing, r.attempts, r.maxAttempts, r.nextAttemptAt, Some(w.stamp), r.version + 1)],
                                     workers := s.workers[c.worker := w.(phase := Claimed)])
                             else s.(workers := s.workers[c.worker := w.(cursor := w.cursor + 1)])
  {
    NotAtRow(s, c.worker, Idle);
  }

  lemma NotAtRow(s: State, id: nat, phase: Phase)
    ensures AtRow(s, id) && s.workers[id].phase == phase ==> exists e :: IsAt(s, id, phase, e)
  {
    if AtRow(s, id) && s.workers[id].phase == phase {
      assert IsAt(s, id, phase, Current(s.workers[id]));
    }
  }

  lemma DeliversExactly(s: State, c: Call, e: Reading)
    requires c.DeliverCall?
    ensures !(exists e :: IsAt(s, c.worker, Claimed, e)) ==> Apply(s, c) == s
    ensures IsAt(s, c.worker, Claimed, e) ==>
              var w := s.workers[c.worker];
              Apply(s, c) == if c.accepted
                             then s.(workers := s.workers[c.worker := w.(phase := Phase.Accepted)],
                                     history := s.history + [Acceptance(e.row, c.worker, w.cursor)])
                             else s.(workers := s.workers[c.worker := w.(phase := Rejected)])
  {
    NotAtRow(s, c.worker, Claimed);
  }

  // The stamp of the worker is still on the row.
  ghost predicate OwnsRow(s: State, id: nat, row: nat)
    requires id < |s.workers| && row < |s.rows|
  {
    s.rows[row].status == Processing && s.rows[row].lockedAt == Some(s.workers[id].stamp)
  }

  lemma CompletesExactly(s: State, c: Call, e: Reading)
    requires c.CompleteCall?
    ensures !(exists e :: IsAt(s, c.worker, Phase.Accepted, e)) ==> Apply(s, c) == s
    ensures IsAt(s, c.worker, Phase.Accepted, e) ==>
              var w, r := s.workers[c.worker], s.rows[e.row];
              Apply(s, c) == if c.stored && OwnsRow(s, c.worker, e.row)
                             then s.(rows := s.rows[e.row := Row(Delivered, r.attempts + 1, r.maxAttempts, r.nextAttemptAt, None, r.version + 1)],
                                     workers := s.workers[c.worker := w.(phase := Idle, cursor := w.cursor + 1, delivered := w.delivered + 1)],
                                     history := s.history + [Settlement(e.row, c.worker, w.cursor, Delivered)])
                             else s.(workers := s.workers[c.worker := w.(phase := Rejected)])
  {
    NotAtRow(s, c.worker, Phase.Accepted);
  }

  // When a failed row is tried again is said apart.
  lemma FailsExactly(s: State, c: Call, e: Reading)
    requires c.FailCall?
    ensures !(exists e :: IsAt(s, c.worker, Rejected, e)) ==> Apply(s, c) == s
    ensures IsAt(s, c.worker, Rejected, e) ==>
              var s' := Apply(s, c);
              var w, r, spent := s.workers[c.worker], s.rows[e.row], e.attempts + 1 >= e.maxAttempts;
              && |s'.rows| == |s.rows|
              && s'.workers == s.workers[c.worker := w.(phase := Idle, cursor := w.cursor + 1, failed := w.failed + 1,
                                                         deadLettered := w.deadLettered + if spent then 1 else 0)]
              && (if OwnsRow(s, c.worker, e.row)
                  then var outcome := if spent then DeadLetter else Pending;
                       && s' == s.(rows := s'.rows, workers := s'.workers, history := s.history + [Settlement(e.row, c.worker, w.cursor, outcome)])
                       && s'.rows == s.rows[e.row := Row(outcome, r.attempts + 1, r.maxAttempts, s'.rows[e.row].nextAttemptAt, None, r.version + 1)]
                  else s' == s.(workers := s'.workers))
  {
    NotAtRow(s, c.worker, Rejected);
  }

  // An administrator's decision: a retry is due at once.
  lemma ReviewsExactly(s: State, c: Call)
    requires c.ReviewCall?
    ensures if c.row < |s.rows| && (s.rows[c.row].status == Pending || s.rows[c.row].status == DeadLetter) && s.rows[c.row].version == c.version then
              var r := s.rows[c.row];
              var r' := if c.retry then Row(Pending, r.attempts, r.maxAttempts, c.at, None, r.version + 1)
                        else Row(Ignored, r.attempts, r.maxAttempts, r.nextAttemptAt, None, r.version + 1);
              Apply(s, c) == s.(rows := s.rows[c.row := r'], reviews := s.reviews + [Review(c.row, r.status, r'.status)])
            else Apply(s, c) == s
  {
  }
}
