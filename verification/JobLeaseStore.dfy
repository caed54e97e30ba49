// The lease and run tables changed in place, and one whole scheduled run while no other worker steps in.

module JobLeaseStore {
  import opened Common
  import opened Lookup
  import opened JobLease
  import opened JobLeaseTheorems

  class Store {
    var clock: int
    var leases: map<Job, Lease>
    var runs: seq<RunRow>
    // What each process carries between its steps; its position here stands for its token.
    var workers: seq<Worker>
    ghost var tenures: seq<Tenure>

    ghost function Contents(): State
      reads this
    {
      State(clock, leases, runs, workers, tenures)
    }

    constructor (clock: int)
      ensures Contents() == Opening(clock)
    {
      this.clock := clock;
      leases, runs, workers, tenures := map[], [], [], [];
    }

    method FindRun(correlation: string) returns (found: Option<nat>)
      ensures found == RunOf(runs, correlation)
    {
      found := FindLast(runs, UnderCorrelation(correlation));
    }

    method Start(job: Job, correlation: string, seconds: Option<int>) returns (reply: Reply)
      modifies this`workers
      ensures (Contents(), reply) == JobLease.Start(old(Contents()), StartCall(job, correlation, seconds))
    {
      var now := clock;
      var bounded := LeaseSeconds(job, seconds);
      if bounded.None? {
        return Refused(InvalidLimit);
      }
      if |correlation| > 120 {
        return Refused(InvalidCorrelation);
      }
      var found := FindRun(correlation);
      if found.Some? && runs[found.value].status == Succeeded && (job == Maintenance || runs[found.value].job == job) {
        var summary := StoredSummary(job, runs[found.value], correlation);
        if summary.Some? {
          return SummaryReply(summary.value);
        }
        return Refused(EvidenceInvalid);
      }
      if found.Some? {
        return Refused(DuplicateCorrelation);
      }
      reply := WorkerReply(|workers|);
      workers := workers + [Worker(job, correlation, bounded.value, now, Looked, 0)];
    }

    // First tries to create the row; a row that is there is taken over only if it ran out.
    method Acquire(worker: nat) returns (reply: Reply)
      requires worker < |workers| && workers[worker].phase == Looked
      modifies this
      ensures (Contents(), reply) == JobLease.Acquire(old(Contents()), AcquireCall(worker))
      ensures Inv(old(Contents())) ==> Inv(Contents())
    {
      hide Inv;
      if Inv(Contents()) {
        ApplyKeepsInv(Contents(), AcquireCall(worker));
      }
      var w := workers[worker];
      var until := w.now + w.leaseSeconds * 1000;
      var acquired := w.job !in leases;
      if acquired {
        leases := leases[w.job := Lease(worker, until)];
      } else if leases[w.job].expiresAt <= w.now {
        leases := leases[w.job := leases[w.job].(token := worker, expiresAt := until)];
        acquired := true;
      }
      workers := workers[worker := w.(phase := if acquired then Holding else Gone)];
      if !acquired {
        return Refused(AlreadyRunning);
      }
      tenures := tenures + [Tenure(w.job, worker, w.now, until)];
      return Done;
    }

    method Record(worker: nat) returns (reply: Reply)
      requires worker < |workers| && workers[worker].phase == Holding
      modifies this
      ensures (Contents(), reply) == JobLease.Record(old(Contents()), RecordCall(worker))
    {
      var w := workers[worker];
      var found := FindRun(w.correlation);
      if found.Some? {
        workers := workers[worker := w.(phase := Gone)];
        return Refused(UniqueViolation);
      }
      workers := workers[worker := w.(phase := Working, run := |runs|)];
      runs := runs + [RunRow(w.job, w.correlation, Running, None)];
      return Done;
    }

    // One transaction: the run row, and the lease row where the worker's token still is.
    method Finish(worker: nat, status: RunStatus, summary: Option<Summary>)
      requires worker < |workers| && workers[worker].run < |runs|
      modifies this
      ensures Contents() == JobLease.Finish(old(Contents()), worker, status, summary)
      ensures Inv(old(Contents())) && EndsWell(old(workers)[worker], status, summary) ==> Inv(Contents())
    {
      hide Inv;
      if Inv(Contents()) && EndsWell(workers[worker], status, summary) {
        FinishKeepsInv(Contents(), worker, status, summary);
      }
      var w, completedAt := workers[worker], clock;
      runs := runs[w.run := runs[w.run].(status := status, summary := summary)];
      if w.job in leases && leases[w.job].token == worker {
        leases := leases[w.job := leases[w.job].(expiresAt := completedAt)];
        tenures := Ended(tenures, worker, completedAt);
      }
      workers := workers[worker := w.(phase := Gone)];
    }

    // Looks the run up, takes the lease and puts the run on record.
    method Enter(job: Job, correlation: string, seconds: Option<int>) returns (reply: Reply, ghost calls: seq<Call>)
      modifies this
      ensures Contents() == Run(old(Contents()), calls) && clock == old(clock)
      ensures reply.WorkerReply? <==> |workers| > |old(workers)| && workers[|workers| - 1].phase == Working
      ensures reply.WorkerReply? ==>
                && reply.worker == |workers| - 1 && workers[reply.worker].job == job && workers[reply.worker].correlation == correlation
                && workers[reply.worker].run == |old(runs)| && runs == old(runs) + [RunRow(job, correlation, Running, None)]
                && job in leases && leases[job].token == reply.worker
                && (job in old(leases) ==> old(leases)[job].expiresAt <= clock)
      ensures RunOf(old(runs), correlation).Some? ==> !reply.WorkerReply? && Contents() == old(Contents())
    {
      hide Run, RunOf, StoredSummary, Inv;
      ghost var before := Contents();
      RunNone(before);
      calls := [];
      reply := Start(job, correlation, seconds);
      if !reply.WorkerReply? {
        return;
      }
      var worker := reply.worker;
      RunOne(before, calls, StartCall(job, correlation, seconds));
      calls := calls + [StartCall(job, correlation, seconds)];
      var acquired := Acquire(worker);
      RunOne(before, calls, AcquireCall(worker));
      calls := calls + [AcquireCall(worker)];
      if acquired.Refused? {
        return acquired, calls;
      }
      var recorded := Record(worker);
      RunOne(before, calls, RecordCall(worker));
      calls := calls + [RecordCall(worker)];
      if recorded.Refused? {
        return recorded, calls;
      }
    }

    // The whole run: the job's own outcome comes from outside, none for a failure, and may take any time.
    method RunJob(job: Job, correlation: string, seconds: Option<int>, outcome: Option<(nat, nat, nat, nat)>, ends: int)
      returns (reply: Reply, ran: bool, ghost calls: seq<Call>)
      requires ends >= clock
      modifies this
      ensures Contents() == Run(old(Contents()), calls)
      ensures RunOf(old(runs), correlation).Some? ==> !ran && Contents() == old(Contents())
      ensures ran ==>
                && (if outcome.Some? then reply.SummaryReply? && reply.summary.correlation == correlation else reply == Done)
                && runs == old(runs) + [if outcome.Some? then RunRow(job, correlation, Succeeded, Some(reply.summary))
                                        else RunRow(job, correlation, Failed, None)]
                && (outcome.Some? ==>
                      var (first, second, third, fourth) := outcome.value;
                      reply.summary == match job
                        case Delivery => DeliverySummary(correlation, first, second, third, fourth, first + second)
                        case Maintenance => MaintenanceSummary(correlation, first, second, third, first + second + third))
                && job in leases && leases[job].expiresAt == ends
                && (job in old(leases) ==> old(leases)[job].expiresAt <= old(clock))
    {
      hide Run, RunOf, StoredSummary, Inv;
      ghost var before := Contents();
      reply, calls := Enter(job, correlation, seconds);
      ran := reply.WorkerReply?;
      if !ran {
        return;
      }
      var worker := reply.worker;
      RunOne(before, calls, TickCall(ends));
      calls := calls + [TickCall(ends)];
      clock := ends;
      if outcome.Some? {
        var (first, second, third, fourth) := outcome.value;
        ghost var c := SucceedCall(worker, first, second, third, fourth);
        RunOne(before, calls, c);
        calls := calls + [c];
        var summary := if job == Delivery then DeliverySummary(correlation, first, second, third, fourth, first + second)
                       else MaintenanceSummary(correlation, first, second, third, first + second + third);
        Finish(worker, Succeeded, Some(summary));
        reply := SummaryReply(summary);
      } else {
        RunOne(before, calls, FailCall(worker));
        calls := calls + [FailCall(worker)];
        Finish(worker, Failed, None);
        reply := Done;
      }
    }
  }
}
