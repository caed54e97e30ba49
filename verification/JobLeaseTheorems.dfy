// Two workers never hold a job's lease over a common moment, a late worker cannot touch its successor's lease,
// and a finished run answers for ever what it answered first.

module JobLeaseTheorems {
  import opened Common
  import opened JobLease

  // ---- the invariant ----

  ghost predicate WorkerOk(s: State, id: nat)
    requires id < |s.workers|
  {
    var w := s.workers[id];
    && w.now <= s.clock && w.leaseSeconds >= 30 && |w.correlation| <= 120
    && (w.phase == Working ==> w.run < |s.runs| && s.runs[w.run].status == Running
                               && s.runs[w.run].job == w.job && s.runs[w.run].correlation == w.correlation)
  }

  ghost predicate WorkersOk(s: State) {
    && (forall id: nat :: id < |s.workers| ==> WorkerOk(s, id))
    && (forall i, j :: 0 <= i < j < |s.workers| && s.workers[i].phase == Working && s.workers[j].phase == Working ==>
          s.workers[i].run != s.workers[j].run)
  }

  ghost predicate TenureOk(s: State, t: Tenure) {
    && t.worker < |s.workers| && s.workers[t.worker].phase != Looked && t.job == s.workers[t.worker].job
    && t.from <= t.until && t.from <= s.clock
    && t.job in s.leases && t.until <= s.leases[t.job].expiresAt
  }

  ghost predicate Ordered(t: Tenure, u: Tenure) {
    t.worker != u.worker && (t.job == u.job ==> t.until <= u.from)
  }

  // The last tenure of a job.
  function Latest(tenures: seq<Tenure>, job: Job): (r: Option<nat>)
    ensures r.Some? ==> r.value < |tenures| && tenures[r.value].job == job && forall i :: r.value < i < |tenures| ==> tenures[i].job != job
    ensures r.None? ==> forall i :: 0 <= i < |tenures| ==> tenures[i].job != job
  {
    if tenures == [] then None
    else if tenures[|tenures| - 1].job == job then Some(|tenures| - 1)
    else Latest(tenures[..|tenures| - 1], job)
  }

  // The row's token is the last worker that took the lease.
  ghost predicate LeaseOk(s: State, job: Job)
    requires job in s.leases
  {
    Latest(s.tenures, job).Some? && s.tenures[Latest(s.tenures, job).value].worker == s.leases[job].token
  }

  ghost predicate TenuresOk(s: State) {
    && (forall k :: 0 <= k < |s.tenures| ==> TenureOk(s, s.tenures[k]))
    && (forall j, k :: 0 <= j < k < |s.tenures| ==> Ordered(s.tenures[j], s.tenures[k]))
    && (forall job :: job in s.leases ==> LeaseOk(s, job))
  }

  ghost predicate RunsOk(s: State) {
    && (forall r :: 0 <= r < |s.runs| ==> s.runs[r].status == Succeeded ==>
          s.runs[r].summary.Some? && s.runs[r].summary.value.correlation == s.runs[r].correlation
          && (s.runs[r].job == Delivery <==> s.runs[r].summary.value.DeliverySummary?))
    && (forall q, r :: 0 <= q < r < |s.runs| ==> s.runs[q].correlation != s.runs[r].correlation)
  }

  ghost predicate Inv(s: State) {
    WorkersOk(s) && TenuresOk(s) && RunsOk(s)
  }

  // ---- preservation ----

  // Only the clock and the list of workers grew.
  lemma GrowthKeepsInv(s: State, s': State)
    requires Inv(s) && s' == s.(clock := s'.clock, workers := s'.workers) && s.clock <= s'.clock && s.workers <= s'.workers
    requires forall id: nat :: |s.workers| <= id < |s'.workers| ==> WorkerOk(s', id) && s'.workers[id].phase == Looked
    ensures Inv(s')
  {
    hide Latest;
    forall id: nat | id < |s'.workers| ensures WorkerOk(s', id) {
      if id < |s.workers| {
        assert WorkerOk(s, id);
      }
    }
    forall k | 0 <= k < |s'.tenures| ensures TenureOk(s', s'.tenures[k]) {
      assert TenureOk(s, s.tenures[k]);
    }
    forall job | job in s'.leases ensures LeaseOk(s', job) {
      assert LeaseOk(s, job);
    }
  }

  lemma StartKeepsInv(s: State, c: Call)
    requires Inv(s) && (c.StartCall? || c.TickCall?)
    ensures Inv(Apply(s, c).0)
  {
    hide Inv, StoredSummary, RunOf;
    GrowthKeepsInv(s, Apply(s, c).0);
  }

  lemma LatestAppended(tenures: seq<Tenure>, t: Tenure, job: Job)
    ensures Latest(tenures + [t], job) == if t.job == job then Some(|tenures|) else Latest(tenures, job)
  {
    assert (tenures + [t])[..|tenures|] == tenures;
  }

  lemma AcquireKeepsTenures(s: State, c: Call)
    requires WorkersOk(s) && TenuresOk(s) && c.AcquireCall? && Acquire(s, c).1 == Done
    ensures TenuresOk(Acquire(s, c).0)
  {
    hide Latest;
    var s' := Acquire(s, c).0;
    var w := s.workers[c.worker];
    var n := |s.tenures|;
    assert WorkerOk(s, c.worker);
    forall k | 0 <= k < |s'.tenures| ensures TenureOk(s', s'.tenures[k]) {
      if k < n {
        assert TenureOk(s, s.tenures[k]);
      }
    }
    forall j | 0 <= j < n ensures Ordered(s'.tenures[j], s'.tenures[n]) {
      assert TenureOk(s, s.tenures[j]);
    }
    forall job | job in s'.leases ensures LeaseOk(s', job) {
      LatestAppended(s.tenures, s'.tenures[n], job);
      if job != w.job {
        assert LeaseOk(s, job);
      }
    }
  }

  lemma AcquireKeepsInv(s: State, c: Call)
    requires Inv(s) && c.AcquireCall?
    ensures Inv(Acquire(s, c).0)
  {
    hide Latest;
    var s' := Acquire(s, c).0;
    forall id: nat | id < |s'.workers| ensures WorkerOk(s', id) {
      assert WorkerOk(s, id);
    }
    if Acquire(s, c).1 == Done {
      AcquireKeepsTenures(s, c);
    } else {
      SameTenures(s, s');
    }
  }

  // Workers that took the lease stay past the look.
  lemma SameTenures(s: State, s': State)
    requires TenuresOk(s) && s'.tenures == s.tenures && s'.leases == s.leases && s'.clock == s.clock && |s'.workers| == |s.workers|
    requires forall id :: 0 <= id < |s.workers| ==>
               s'.workers[id].job == s.workers[id].job && (s.workers[id].phase != Looked ==> s'.workers[id].phase != Looked)
    ensures TenuresOk(s')
  {
    forall k | 0 <= k < |s'.tenures| ensures TenureOk(s', s'.tenures[k]) {
      assert TenureOk(s, s.tenures[k]);
    }
    forall job | job in s'.leases ensures LeaseOk(s', job) {
      assert LeaseOk(s, job);
    }
  }

  lemma RecordKeepsInv(s: State, c: Call)
    requires Inv(s) && c.RecordCall?
    ensures Inv(Record(s, c).0)
  {
    hide Latest;
    var s' := Record(s, c).0;
    forall id: nat | id < |s'.workers| ensures WorkerOk(s', id) {
      assert WorkerOk(s, id);
    }
    forall id: nat | id < |s.workers| && s.workers[id].phase == Working ensures s.workers[id].run < |s.runs| {
      assert WorkerOk(s, id);
    }
    SameTenures(s, s');
  }

  lemma EndedKeepsLatest(tenures: seq<Tenure>, worker: nat, at: int, job: Job)
    ensures Latest(Ended(tenures, worker, at), job) == Latest(tenures, job)
  {
    var ended := Ended(tenures, worker, at);
    assert forall i :: 0 <= i < |tenures| ==> ended[i].job == tenures[i].job;
  }

  lemma EndedKeepsOrder(tenures: seq<Tenure>, worker: nat, at: int)
    requires forall j, k :: 0 <= j < k < |tenures| ==> Ordered(tenures[j], tenures[k])
    ensures var ended := Ended(tenures, worker, at);
            forall j, k :: 0 <= j < k < |ended| ==> Ordered(ended[j], ended[k])
  {
    hide Ended;
    var ended := Ended(tenures, worker, at);
    forall j, k | 0 <= j < k < |ended| ensures Ordered(ended[j], ended[k]) {
      assert Ordered(tenures[j], tenures[k]);
    }
  }

  lemma {:induction false} HandBackKeepsTenures(s: State, id: nat)
    requires TenuresOk(s) && id < |s.workers|
    ensures TenuresOk(HandBack(s, id))
  {
    hide Latest, Ended;
    var s' := HandBack(s, id);
    var job := s.workers[id].job;
    if job in s.leases && s.leases[job].token == id {
      assert LeaseOk(s, job);
      var last := Latest(s.tenures, job).value;
      forall k | 0 <= k < |s'.tenures| ensures TenureOk(s', s'.tenures[k]) {
        assert TenureOk(s, s.tenures[k]);
        if k < last {
          assert Ordered(s.tenures[k], s.tenures[last]) && TenureOk(s, s.tenures[last]);
        }
      }
      EndedKeepsOrder(s.tenures, id, s.clock);
      forall other | other in s'.leases ensures LeaseOk(s', other) {
        assert LeaseOk(s, other);
        EndedKeepsLatest(s.tenures, id, s.clock, other);
      }
    }
  }

  lemma FinishKeepsWorkers(s: State, id: nat, status: RunStatus, summary: Option<Summary>)
    requires WorkersOk(s) && id < |s.workers| && s.workers[id].phase == Working && s.workers[id].run < |s.runs|
    ensures WorkersOk(Finish(s, id, status, summary))
  {
    var s' := Finish(s, id, status, summary);
    forall other: nat | other < |s'.workers| ensures WorkerOk(s', other) {
      assert WorkerOk(s, other);
    }
  }

  // A working run ends for good, a success with a summary of its own job and correlation id.
  predicate EndsWell(w: Worker, status: RunStatus, summary: Option<Summary>) {
    && w.phase == Working && status != Running
    && (status == Succeeded ==> summary.Some? && summary.value.correlation == w.correlation
                                && (w.job == Delivery <==> summary.value.DeliverySummary?))
  }

  lemma {:induction false} FinishKeepsInv(s: State, id: nat, status: RunStatus, summary: Option<Summary>)
    requires Inv(s) && id < |s.workers| && EndsWell(s.workers[id], status, summary) && s.workers[id].run < |s.runs|
    ensures Inv(Finish(s, id, status, summary))
  {
    HandBackKeepsTenures(s, id);
    FinishKeepsWorkers(s, id, status, summary);
    assert WorkerOk(s, id);
    hide WorkersOk, TenuresOk;
    SameTenures(HandBack(s, id), Finish(s, id, status, summary));
  }

  lemma ApplyKeepsInv(s: State, c: Call)
    requires Inv(s)
    ensures Inv(Apply(s, c).0)
  {
    if c.StartCall? || c.TickCall? { StartKeepsInv(s, c); }
    else if c.AcquireCall? { AcquireKeepsInv(s, c); }
    else if c.RecordCall? { RecordKeepsInv(s, c); }
    else if c.SucceedCall? {
      if Succeed(s, c).1.SummaryReply? { FinishKeepsInv(s, c.worker, Succeeded, Some(SummaryOf(s.workers[c.worker], c))); }
    } else if Fail(s, c).1 == Done {
      FinishKeepsInv(s, c.worker, Failed, None);
    }
  }

  lemma {:induction false} RunKeepsInv(clock: int, calls: seq<Call>)
    ensures Inv(Run(Opening(clock), calls))
  {
    hide Apply;
    if calls != [] {
      RunKeepsInv(clock, calls[..|calls| - 1]);
      ApplyKeepsInv(Run(Opening(clock), calls[..|calls| - 1]), calls[|calls| - 1]);
    }
  }

  lemma RunNone(s: State)
    ensures Run(s, []) == s
  {
  }

  lemma {:induction false} RunOne(s: State, calls: seq<Call>, c: Call)
    ensures Run(s, calls + [c]) == Apply(Run(s, calls), c).0
  {
    assert (calls + [c])[..|calls + [c]| - 1] == calls;
  }

  // ---- theorems ----

  // Over every run: of two tenures of one job the earlier ends before the later begins, so no moment is in both.
  lemma {:induction false} TenuresNeverOverlap(clock: int, calls: seq<Call>, moment: int)
    ensures var s := Run(Opening(clock), calls);
            forall j, k :: 0 <= j < k < |s.tenures| && s.tenures[j].job == s.tenures[k].job ==>
              && s.tenures[j].until <= s.tenures[k].from
              && !(s.tenures[j].from <= moment < s.tenures[j].until && s.tenures[k].from <= moment < s.tenures[k].until)
  {
    hide Run;
    RunKeepsInv(clock, calls);
    var s := Run(Opening(clock), calls);
    forall j, k | 0 <= j < k < |s.tenures| && s.tenures[j].job == s.tenures[k].job ensures s.tenures[j].until <= s.tenures[k].from {
      assert Ordered(s.tenures[j], s.tenures[k]);
    }
  }

  lemma FinishTouchesOwnLease(s: State, id: nat, status: RunStatus, summary: Option<Summary>, k: nat)
    requires TenuresOk(s) && id < |s.workers| && s.workers[id].run < |s.runs|
    requires Latest(s.tenures, s.workers[id].job) == Some(k)
    ensures var job := s.workers[id].job;
            && job in s.leases
            && Finish(s, id, status, summary).leases == if s.tenures[k].worker == id then s.leases[job := Lease(id, s.clock)] else s.leases
  {
    hide Latest, Ended;
    assert TenureOk(s, s.tenures[k]) && LeaseOk(s, s.workers[id].job);
  }

  // A worker that finishes after another took the lease changes no lease; the last one to take it ends it now.
  lemma {:induction false} LateWorkersLeaveTheLease(s: State, c: Call, k: nat)
    requires Inv(s) && (c.SucceedCall? || c.FailCall?) && !Apply(s, c).1.Refused?
    requires Latest(s.tenures, s.workers[c.worker].job) == Some(k)
    ensures var job := s.workers[c.worker].job;
            && job in s.leases
            && Apply(s, c).0.leases == if s.tenures[k].worker == c.worker then s.leases[job := Lease(c.worker, s.clock)] else s.leases
  {
    hide Latest, TenuresOk, WorkersOk, RunsOk, Finish;
    if c.SucceedCall? {
      FinishTouchesOwnLease(s, c.worker, Succeeded, Some(SummaryOf(s.workers[c.worker], c)), k);
    } else {
      FinishTouchesOwnLease(s, c.worker, Failed, None, k);
    }
  }

  // A run that ended never changes again.
  lemma EndedRunStays(s: State, c: Call, r: nat)
    requires Inv(s) && r < |s.runs| && s.runs[r].status != Running
    ensures r < |Apply(s, c).0.runs| && Apply(s, c).0.runs[r] == s.runs[r]
  {
    if (c.SucceedCall? || c.FailCall?) && c.worker < |s.workers| {
      assert WorkerOk(s, c.worker);
    }
  }

  lemma {:induction false} EndedRunsStay(s: State, calls: seq<Call>, r: nat)
    requires Inv(s) && r < |s.runs| && s.runs[r].status != Running
    ensures Inv(Run(s, calls)) && r < |Run(s, calls).runs| && Run(s, calls).runs[r] == s.runs[r]
  {
    hide Apply;
    if calls != [] {
      var before := Run(s, calls[..|calls| - 1]);
      EndedRunsStay(s, calls[..|calls| - 1], r);
      EndedRunStay(before, calls[|calls| - 1], r);
    }
  }

  lemma EndedRunStay(s: State, c: Call, r: nat)
    requires Inv(s) && r < |s.runs| && s.runs[r].status != Running
    ensures Inv(Apply(s, c).0) && r < |Apply(s, c).0.runs| && Apply(s, c).0.runs[r] == s.runs[r]
  {
    EndedRunStays(s, c, r);
    ApplyKeepsInv(s, c);
  }

  predicate Readable(summary: Summary) {
    summary.DeliverySummary? ==> && Safe(summary.delivered) && Safe(summary.failed) && Safe(summary.deadLettered)
                                 && Safe(summary.recovered) && Safe(summary.processed)
  }

  lemma SucceededIsOnRecord(s: State, c: Call)
    requires Inv(s) && c.SucceedCall? && Succeed(s, c).1.SummaryReply?
    ensures var w := s.workers[c.worker];
            && w.run < |Succeed(s, c).0.runs| && |w.correlation| <= 120
            && Succeed(s, c).0.runs[w.run] == RunRow(w.job, w.correlation, Succeeded, Some(Succeed(s, c).1.summary))
  {
    assert WorkerOk(s, c.worker);
  }

  lemma OnRecordIsAnswered(s: State, start: Call, r: nat)
    requires RunsOk(s) && start.StartCall? && |start.correlation| <= 120 && LeaseSeconds(start.job, start.leaseSeconds).Some?
    requires r < |s.runs| && s.runs[r].status == Succeeded && s.runs[r].job == start.job && s.runs[r].correlation == start.correlation
    ensures Start(s, start) == (s, var stored := StoredSummary(start.job, s.runs[r], start.correlation);
                                   if stored.Some? then SummaryReply(stored.value) else Refused(EvidenceInvalid))
  {
    var found := RunOf(s.runs, start.correlation);
    assert found == Some(r);
  }

  // A job that succeeded under a correlation id is not run again under it: whatever happens in between, the same call is
  // answered with the very summary of that run and changes nothing, provided its counts are safe integers; if they are
  // not, it is refused and still changes nothing.
  lemma {:induction false} RepeatedRunsAnswerTheSame(s: State, c: Call, calls: seq<Call>, seconds: Option<int>)
    requires Inv(s) && c.SucceedCall? && Succeed(s, c).1.SummaryReply?
    requires LeaseSeconds(s.workers[c.worker].job, seconds).Some?
    ensures var w := s.workers[c.worker];
            var later := Run(Succeed(s, c).0, calls);
            Start(later, StartCall(w.job, w.correlation, seconds))
            == (later, if Readable(Succeed(s, c).1.summary) then Succeed(s, c).1 else Refused(EvidenceInvalid))
  {
    var w, s1 := s.workers[c.worker], Succeed(s, c).0;
    SucceededIsOnRecord(s, c);
    ApplyKeepsInv(s, c);
    assert s1.runs[w.run].summary == Some(SummaryOf(w, c));
    assert Succeed(s, c).1 == SummaryReply(SummaryOf(w, c));
    EndedRunsStay(s1, calls, w.run);
    hide Run, Start, Succeed;
    OnRecordIsAnswered(Run(s1, calls), StartCall(w.job, w.correlation, seconds), w.run);
  }

  lemma {:induction false} RunPrefix(s: State, calls: seq<Call>, n: nat)
    requires n < |calls|
    ensures Run(s, calls[..n + 1]) == Apply(Run(s, calls[..n]), calls[n]).0
  {
    assert calls[..n + 1][..n] == calls[..n];
  }

  // ---- whose summary is answered ----

  ghost predicate DeliverySucceededUnder(s: State, correlation: string) {
    exists r :: 0 <= r < |s.runs| && s.runs[r].correlation == correlation && s.runs[r].job == Delivery && s.runs[r].status == Succeeded
  }

  // Maintenance takes any succeeded run for its own: it answers with a delivery's summary exactly when it is called as
  // it should be and some delivery succeeded under its correlation id.
  lemma MaintenanceAnswersForDeliveries(s: State, start: Call)
    requires Inv(s) && start.StartCall? && start.job == Maintenance
    ensures var reply := Start(s, start).1;
            (reply.SummaryReply? && reply.summary.DeliverySummary?)
            <==> && LeaseSeconds(Maintenance, start.leaseSeconds).Some? && |start.correlation| <= 120
                 && DeliverySucceededUnder(s, start.correlation)
  {
    var found := RunOf(s.runs, start.correlation);
    if DeliverySucceededUnder(s, start.correlation) {
      var r :| 0 <= r < |s.runs| && s.runs[r].correlation == start.correlation && s.runs[r].job == Delivery && s.runs[r].status == Succeeded;
      assert found == Some(r);
    }
  }

  // The first worker of a list goes through a delivery under "x" at moment 0.
  const LOOKED := Worker(Delivery, "x", 300, 0, Looked, 0)

  function Fresh(workers: seq<Worker>): State { State(0, map[], [], workers, []) }

  function AtWork(workers: seq<Worker>): State
    requires workers != []
  {
    State(0, map[Delivery := Lease(0, 300_000)], [RunRow(Delivery, "x", Running, None)],
          workers[0 := LOOKED.(phase := Working)], [Tenure(Delivery, 0, 0, 300_000)])
  }

  function Delivered(workers: seq<Worker>, summary: Summary): State
    requires workers != []
  {
    State(0, map[Delivery := Lease(0, 0)], [RunRow(Delivery, "x", Succeeded, Some(summary))],
          workers[0 := LOOKED.(phase := Gone)], [Tenure(Delivery, 0, 0, 0)])
  }

  lemma Begins(workers: seq<Worker>)
    requires workers != [] && workers[0] == LOOKED
    ensures Record(Acquire(Fresh(workers), AcquireCall(0)).0, RecordCall(0)).0 == AtWork(workers)
  {
    assert RunOf([], "x").None?;
  }

  lemma Delivers(workers: seq<Worker>, c: Call)
    requires workers != [] && c.SucceedCall? && c.worker == 0
    ensures Succeed(AtWork(workers), c).0
            == Delivered(workers, DeliverySummary("x", c.first, c.second, c.third, c.fourth, c.first + c.second))
  {
    assert Ended([Tenure(Delivery, 0, 0, 300_000)], 0, 0) == [Tenure(Delivery, 0, 0, 0)];
  }

  // A delivery under "x" that delivered three events and gave up on one.
  const DELIVERED := [StartCall(Delivery, "x", None), AcquireCall(0), RecordCall(0), SucceedCall(0, 3, 1, 0, 2)]

  lemma AfterDelivered()
    ensures Run(Opening(0), DELIVERED) == Delivered([LOOKED], DeliverySummary("x", 3, 1, 0, 2, 4))
  {
    var s := Opening(0);
    assert DELIVERED[..0] == [] && DELIVERED[..4] == DELIVERED;
    RunNone(s);
    RunPrefix(s, DELIVERED, 0);
    RunPrefix(s, DELIVERED, 1);
    RunPrefix(s, DELIVERED, 2);
    RunPrefix(s, DELIVERED, 3);
    assert Start(s, DELIVERED[0]).0 == Fresh([LOOKED]);
    hide Run, Start, Acquire, Record, Succeed;
    Begins([LOOKED]);
    Delivers([LOOKED], DELIVERED[3]);
  }

  // Maintenance called under "x" after it does nothing and reports the delivery's counts.
  lemma MaintenanceReportsADelivery()
    ensures var s := Run(Opening(0), DELIVERED);
            Start(s, StartCall(Maintenance, "x", None)) == (s, SummaryReply(DeliverySummary("x", 3, 1, 0, 2, 4)))
  {
    AfterDelivered();
    hide Run;
  }

  // ---- a lease with nobody working under it ----

  // A worker that is gone while the job's lease still carries its token.
  ghost predicate LeftBehind(s: State, id: nat) {
    && id < |s.workers| && s.workers[id].phase == Gone
    && s.workers[id].job in s.leases && s.leases[s.workers[id].job].token == id
  }

  lemma HolderStays(s: State, c: Call, id: nat)
    requires id < |s.workers| && s.workers[id].phase == Holding && c != RecordCall(id)
    ensures id < |Apply(s, c).0.workers| && Apply(s, c).0.workers[id] == s.workers[id]
  {
    hide RunOf, StoredSummary, Ended;
  }

  // Whatever happens before a worker that took the lease comes to put its run on record: it is lost there exactly when
  // somebody used its correlation id by then, and it leaves the lease behind exactly when, moreover, nobody took it over.
  lemma {:induction false} HoldersAreLostExactlyOnTakenIds(s: State, calls: seq<Call>, id: nat)
    requires id < |s.workers| && s.workers[id].phase == Holding && RecordCall(id) !in calls
    ensures var before, w := Run(s, calls), s.workers[id];
            var (after, reply) := Apply(before, RecordCall(id));
            var taken := RunOf(before.runs, w.correlation).Some?;
            && id < |before.workers| && before.workers[id] == w && id < |after.workers|
            && (after.workers[id].phase == Gone <==> taken) && (reply == Refused(UniqueViolation) <==> taken)
            && after.leases == before.leases && after.tenures == before.tenures
            && (LeftBehind(after, id) <==> taken && w.job in before.leases && before.leases[w.job].token == id)
  {
    if calls != [] {
      hide Apply;
      HoldersAreLostExactlyOnTakenIds(s, calls[..|calls| - 1], id);
      HolderStays(Run(s, calls[..|calls| - 1]), calls[|calls| - 1], id);
    }
    RecordDecides(Run(s, calls), id);
  }

  lemma RecordDecides(s: State, id: nat)
    requires id < |s.workers| && s.workers[id].phase == Holding
    ensures var w, (s', reply) := s.workers[id], Apply(s, RecordCall(id));
            var taken := RunOf(s.runs, w.correlation).Some?;
            && id < |s'.workers| && (s'.workers[id].phase == Gone <==> taken) && (reply == Refused(UniqueViolation) <==> taken)
            && s'.leases == s.leases && s'.tenures == s.tenures
            && (LeftBehind(s', id) <==> taken && w.job in s.leases && s.leases[w.job].token == id)
  {
  }

  // Since `from`, nobody took the job's lease before it ran out, and it is untouched unless somebody took it.
  ghost predicate HeldOff(from: State, s: State, job: Job, lease: Lease) {
    && |from.tenures| <= |s.tenures|
    && (forall k :: |from.tenures| <= k < |s.tenures| && s.tenures[k].job == job ==> s.tenures[k].from >= lease.expiresAt)
    && ((forall k :: |from.tenures| <= k < |s.tenures| ==> s.tenures[k].job != job) ==> job in s.leases && s.leases[job] == lease)
  }

  // A step that took a lease, and one that took none: worker `id` is gone and touches no lease.
  ghost predicate Took(s: State, s': State) {
    && |s'.tenures| == |s.tenures| + 1 && s'.tenures[..|s.tenures|] == s.tenures
    && var t := s'.tenures[|s.tenures|];
       && (t.job in s.leases ==> s.leases[t.job].expiresAt <= t.from)
       && (forall job :: job in s.leases && job != t.job ==> job in s'.leases && s'.leases[job] == s.leases[job])
  }

  ghost predicate TookNone(s: State, s': State, id: nat) {
    && |s'.tenures| == |s.tenures|
    && (forall k :: 0 <= k < |s.tenures| ==> s'.tenures[k].job == s.tenures[k].job && s'.tenures[k].from == s.tenures[k].from)
    && (forall job :: job in s.leases && s.leases[job].token == id ==> job in s'.leases && s'.leases[job] == s.leases[job])
  }

  lemma {:induction false} StepTakesAtMostOne(s: State, c: Call, id: nat)
    requires id < |s.workers| && s.workers[id].phase == Gone
    ensures Took(s, Apply(s, c).0) || TookNone(s, Apply(s, c).0, id)
    ensures id < |Apply(s, c).0.workers| && Apply(s, c).0.workers[id].phase == Gone
  {
    hide RunOf, StoredSummary;
  }

  // The new tenure begins after the lease ran out: it follows the one before it, or it is the first.
  lemma {:induction false} TookLate(from: State, s: State, s': State, job: Job, lease: Lease)
    requires TenuresOk(s') && HeldOff(from, s, job, lease) && Took(s, s') && s'.tenures[|s.tenures|].job == job
    ensures s'.tenures[|s.tenures|].from >= lease.expiresAt
  {
    hide Latest;
    var n := |s.tenures|;
    if j :| |from.tenures| <= j < n && s.tenures[j].job == job {
      assert s'.tenures[..n][j] == s.tenures[j];
      assert Ordered(s'.tenures[j], s'.tenures[n]) && TenureOk(s', s'.tenures[j]);
    }
  }

  lemma {:induction false} StepHoldsOff(from: State, s: State, s': State, id: nat, job: Job, lease: Lease)
    requires TenuresOk(s') && HeldOff(from, s, job, lease) && lease.token == id
    requires Took(s, s') || TookNone(s, s', id)
    ensures HeldOff(from, s', job, lease)
  {
    hide TenuresOk;
    var n := |s.tenures|;
    if Took(s, s') {
      if s'.tenures[n].job == job {
        TookLate(from, s, s', job, lease);
      }
      forall k | 0 <= k < n ensures s'.tenures[k] == s.tenures[k] {
        assert s'.tenures[..n][k] == s.tenures[k];
      }
    }
  }

  // Over every run that follows: the job is taken by nobody before that lease runs out, and until then the lease is
  // the one left behind.
  lemma {:induction false} LeftLeasesHoldOthersOff(s: State, calls: seq<Call>, id: nat)
    requires Inv(s) && LeftBehind(s, id)
    ensures var s', job := Run(s, calls), s.workers[id].job;
            var lease := s.leases[job];
            && |s.tenures| <= |s'.tenures|
            && (forall k :: |s.tenures| <= k < |s'.tenures| && s'.tenures[k].job == job ==> s'.tenures[k].from >= lease.expiresAt)
            && (s'.clock < lease.expiresAt ==> job in s'.leases && s'.leases[job] == lease)
  {
    hide Apply, WorkersOk, RunsOk;
    var s', job := Run(s, calls), s.workers[id].job;
    RunHoldsOff(s, calls, id);
    if k :| |s.tenures| <= k < |s'.tenures| && s'.tenures[k].job == job {
      assert TenureOk(s', s'.tenures[k]);
    }
  }

  lemma InvHasTenures(s: State)
    requires Inv(s)
    ensures TenuresOk(s)
  {
  }

  lemma StartsHeldOff(s: State, id: nat)
    requires LeftBehind(s, id)
    ensures HeldOff(s, s, s.workers[id].job, s.leases[s.workers[id].job])
  {
  }

  lemma {:induction false} RunHoldsOff(s: State, calls: seq<Call>, id: nat)
    requires Inv(s) && LeftBehind(s, id)
    ensures var s', job := Run(s, calls), s.workers[id].job;
            Inv(s') && HeldOff(s, s', job, s.leases[job]) && id < |s'.workers| && s'.workers[id].phase == Gone
  {
    hide Apply, Inv, TenuresOk, HeldOff, Took, TookNone;
    if calls == [] {
      StartsHeldOff(s, id);
    } else {
      var before, s' := Run(s, calls[..|calls| - 1]), Run(s, calls);
      var job := s.workers[id].job;
      RunHoldsOff(s, calls[..|calls| - 1], id);
      ApplyKeepsInv(before, calls[|calls| - 1]);
      StepTakesAtMostOne(before, calls[|calls| - 1], id);
      InvHasTenures(s');
      StepHoldsOff(s, before, s', id, job, s.leases[job]);
    }
  }

  // And no longer: a worker that starts at the moment it runs out, under a fresh correlation id, takes it.
  lemma LeftLeasesAreTakenWhenTheyRunOut(s: State, id: nat, correlation: string)
    requires LeftBehind(s, id) && |correlation| <= 120 && RunOf(s.runs, correlation).None?
    requires s.clock <= s.leases[s.workers[id].job].expiresAt
    ensures var job, w := s.workers[id].job, |s.workers|;
            var expiry := s.leases[job].expiresAt;
            var s' := Run(s, [TickCall(expiry), StartCall(job, correlation, None), AcquireCall(w)]);
            && job in s'.leases && s'.leases[job].token == w
            && |s'.tenures| == |s.tenures| + 1 && s'.tenures[|s.tenures|].worker == w && s'.tenures[|s.tenures|].from == expiry
  {
    var job, w := s.workers[id].job, |s.workers|;
    var calls := [TickCall(s.leases[job].expiresAt), StartCall(job, correlation, None), AcquireCall(w)];
    assert calls[..0] == [] && calls[..3] == calls;
    RunPrefix(s, calls, 0);
    RunPrefix(s, calls, 1);
    RunPrefix(s, calls, 2);
    RunNone(s);
    hide Run, RunOf;
    assert Run(s, calls[..1]) == s.(clock := s.leases[job].expiresAt);
    assert Start(Run(s, calls[..1]), calls[1]).1 == WorkerReply(w);
  }

  // Two workers that look under "x" before either is on record.
  const RACE :=
    [StartCall(Delivery, "x", None), StartCall(Delivery, "x", None), AcquireCall(0), RecordCall(0), SucceedCall(0, 0, 0, 0, 0),
     AcquireCall(1), RecordCall(1)]

  lemma BothLooked()
    ensures Run(Opening(0), RACE[..2]) == Fresh([LOOKED, LOOKED])
  {
    var s := Opening(0);
    assert RACE[..0] == [];
    RunNone(s);
    RunPrefix(s, RACE, 0);
    RunPrefix(s, RACE, 1);
    hide Run;
  }

  lemma FirstIsDone()
    ensures Run(Opening(0), RACE[..5]) == Delivered([LOOKED, LOOKED], DeliverySummary("x", 0, 0, 0, 0, 0))
  {
    var s := Opening(0);
    BothLooked();
    hide Run, Start, Acquire, Record, Succeed;
    RunPrefix(s, RACE, 2);
    RunPrefix(s, RACE, 3);
    RunPrefix(s, RACE, 4);
    Begins([LOOKED, LOOKED]);
    Delivers([LOOKED, LOOKED], RACE[4]);
  }

  lemma SecondIsLost(summary: Summary)
    ensures var s := Record(Acquire(Delivered([LOOKED, LOOKED], summary), AcquireCall(1)).0, RecordCall(1)).0;
            LeftBehind(s, 1) && s.leases == map[Delivery := Lease(1, 300_000)] && s.clock == 0
  {
    var s := Acquire(Delivered([LOOKED, LOOKED], summary), AcquireCall(1)).0;
    assert s.workers == [LOOKED.(phase := Gone), LOOKED.(phase := Holding)];
    assert s.runs[0].correlation == "x";
  }

  // The second takes the lease after the first is done, cannot record its run and leaves the lease for five minutes.
  lemma LostRaceLeavesTheLease()
    ensures var s := Run(Opening(0), RACE);
            LeftBehind(s, 1) && s.leases == map[Delivery := Lease(1, 300_000)] && s.clock == 0
  {
    var s, summary := Opening(0), DeliverySummary("x", 0, 0, 0, 0, 0);
    FirstIsDone();
    assert RACE[..7] == RACE;
    hide Run, Acquire, Record, LeftBehind, Delivered;
    RunPrefix(s, RACE, 5);
    RunPrefix(s, RACE, 6);
    SecondIsLost(summary);
  }
}
