// What each step of a scheduled job asks for and what it leaves, spelled on the lease, the run and the worker.

module JobLeaseOutcomes {
  import opened Common
  import opened JobLease
  import opened JobLeaseTheorems

  // Seconds for which a call takes the lease: a delivery from 300 to 900, else 300; maintenance from 30 to 600, 120 unless
  // it says, and nothing else.
  ghost predicate Leases(job: Job, asked: Option<int>, seconds: int) {
    match job
    case Delivery => seconds == match asked { case Some(n) => (if n < 300 || 900 < n then 300 else n) case None => 300 }
    case Maintenance => match asked { case Some(n) => 30 <= n <= 600 && seconds == n case None => seconds == 120 }
  }

  ghost predicate Unused(s: State, correlation: string) {
    forall r :: 0 <= r < |s.runs| ==> s.runs[r].correlation != correlation
  }

  // A run may start exactly under a fresh id of up to 120 letters and with a lease its job allows; it holds nothing yet.
  lemma StartsExactly(s: State, c: Call, seconds: int)
    requires c.StartCall?
    ensures Leases(c.job, c.leaseSeconds, seconds) && |c.correlation| <= 120 && Unused(s, c.correlation) ==>
              Apply(s, c) == (s.(workers := s.workers + [Worker(c.job, c.correlation, seconds, s.clock, Looked, 0)]), WorkerReply(|s.workers|))
    ensures !(exists n :: Leases(c.job, c.leaseSeconds, n)) || |c.correlation| > 120 || !Unused(s, c.correlation) ==>
              Apply(s, c).0 == s && !Apply(s, c).1.WorkerReply?
  {
    var n := LeaseSeconds(c.job, c.leaseSeconds);
    if n.Some? {
      assert Leases(c.job, c.leaseSeconds, n.value);
    }
    hide RunOf, StoredSummary;
  }

  // An id that was used is answered by the stored summary exactly when the run succeeded and is one of the job's own, or
  // the caller is maintenance, and, for a delivery, its counts add up and are safe.
  lemma UsedIdsAnswerExactly(s: State, c: Call, r: nat, seconds: int)
    requires RunsOk(s) && c.StartCall? && r < |s.runs| && s.runs[r].correlation == c.correlation
    requires |c.correlation| <= 120 && Leases(c.job, c.leaseSeconds, seconds)
    ensures var row := s.runs[r];
            var mine := row.status == Succeeded && (c.job == Maintenance || row.job == Delivery);
            var (s', reply) := Apply(s, c);
            && s' == s && (!mine ==> reply == Refused(DuplicateCorrelation))
            && (mine && c.job == Maintenance ==> reply == SummaryReply(row.summary.value))
            && (mine && c.job == Delivery ==>
                  var sum := row.summary.value;
                  reply == if sum.processed == sum.delivered + sum.failed
                              && sum.delivered <= 9_007_199_254_740_991 && sum.failed <= 9_007_199_254_740_991
                              && sum.deadLettered <= 9_007_199_254_740_991 && sum.recovered <= 9_007_199_254_740_991
                              && sum.processed <= 9_007_199_254_740_991
                           then SummaryReply(sum) else Refused(EvidenceInvalid))
  {
    assert RunOf(s.runs, c.correlation) == Some(r);
    hide RunOf;
  }

  ghost predicate IsIn(s: State, id: nat, phase: Phase) { id < |s.workers| && s.workers[id].phase == phase }

  // The lease is taken exactly when there is none or it ran out by the moment the worker started.
  lemma AcquiresExactly(s: State, c: Call)
    requires c.AcquireCall?
    ensures if !IsIn(s, c.worker, Looked) then Apply(s, c) == (s, Refused(NotThere))
            else
              var w := s.workers[c.worker];
              if w.job !in s.leases || s.leases[w.job].expiresAt <= w.now then
                Apply(s, c) == (s.(leases := s.leases[w.job := Lease(c.worker, w.now + 1000 * w.leaseSeconds)],
                                   workers := s.workers[c.worker := w.(phase := Holding)],
                                   tenures := s.tenures + [Tenure(w.job, c.worker, w.now, w.now + 1000 * w.leaseSeconds)]), Done)
              else Apply(s, c) == (s.(workers := s.workers[c.worker := w.(phase := Gone)]), Refused(AlreadyRunning))
  {
  }

  lemma RecordsExactly(s: State, c: Call)
    requires c.RecordCall?
    ensures if !IsIn(s, c.worker, Holding) then Apply(s, c) == (s, Refused(NotThere))
            else
              var w := s.workers[c.worker];
              if Unused(s, w.correlation) then
                Apply(s, c) == (s.(runs := s.runs + [RunRow(w.job, w.correlation, Running, None)],
                                   workers := s.workers[c.worker := w.(phase := Working, run := |s.runs|)]), Done)
              else Apply(s, c) == (s.(workers := s.workers[c.worker := w.(phase := Gone)]), Refused(UniqueViolation))
  {
    hide RunOf;
  }

  // The run ends, and the lease and the tenure now, if the lease still carries the worker's token.
  ghost predicate EndsRun(s: State, s': State, id: nat, row: RunRow)
    requires id < |s.workers| && s.workers[id].run < |s.runs|
  {
    var w := s.workers[id];
    && s' == s.(runs := s.runs[w.run := row], workers := s.workers[id := w.(phase := Gone)], leases := s'.leases, tenures := s'.tenures)
    && |s'.tenures| == |s.tenures|
    && if w.job in s.leases && s.leases[w.job].token == id then
         && s'.leases == s.leases[w.job := Lease(id, s.clock)]
         && forall k :: 0 <= k < |s.tenures| ==>
              s'.tenures[k] == if s.tenures[k].worker == id && s.clock < s.tenures[k].until then s.tenures[k].(until := s.clock) else s.tenures[k]
       else s'.leases == s.leases && s'.tenures == s.tenures
  }

  // A success stores the counts in their places, and their sum: of a delivery the delivered and the failed.
  lemma SuccessesAreStored(s: State, c: Call)
    requires Inv(s) && c.SucceedCall?
    ensures var (s', reply) := Apply(s, c);
            if !IsIn(s, c.worker, Working) then (s', reply) == (s, Refused(NotThere))
            else
              var w := s.workers[c.worker];
              var summary := match w.job
                case Delivery => DeliverySummary(w.correlation, c.first, c.second, c.third, c.fourth, c.first + c.second)
                case Maintenance => MaintenanceSummary(w.correlation, c.first, c.second, c.third, c.first + c.second + c.third);
              && w.run < |s.runs| && reply == SummaryReply(summary)
              && EndsRun(s, s', c.worker, RunRow(w.job, w.correlation, Succeeded, Some(summary)))
  {
    if IsIn(s, c.worker, Working) {
      assert WorkerOk(s, c.worker);
    }
    hide Latest, TenuresOk, RunsOk;
  }

  lemma FailuresAreStored(s: State, c: Call)
    requires Inv(s) && c.FailCall?
    ensures var (s', reply) := Apply(s, c);
            if !IsIn(s, c.worker, Working) then (s', reply) == (s, Refused(NotThere))
            else
              var w := s.workers[c.worker];
              w.run < |s.runs| && reply == Done && EndsRun(s, s', c.worker, RunRow(w.job, w.correlation, Failed, None))
  {
    if IsIn(s, c.worker, Working) {
      assert WorkerOk(s, c.worker);
    }
    hide Latest, TenuresOk, RunsOk;
  }
}
