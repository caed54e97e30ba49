// The lease under which scheduled jobs run, one per job, and the record of their runs under a caller's correlation id.
// Each worker goes through its steps on its own; steps of different workers interleave. Times are milliseconds.

module JobLease {
  import opened Common
  import opened Lookup

  datatype Job = Delivery | Maintenance

  datatype Summary =
    | DeliverySummary(correlation: string, delivered: nat, failed: nat, deadLettered: nat, recovered: nat, processed: nat)
    | MaintenanceSummary(correlation: string, holds: nat, locks: nat, claims: nat, processed: nat)

  datatype RunStatus = Running | Succeeded | Failed
  datatype RunRow = RunRow(job: Job, correlation: string, status: RunStatus, summary: Option<Summary>)
  datatype Lease = Lease(token: nat, expiresAt: int)

  // Looked: no run under the correlation id was found. Holding: the lease was taken. Working: the run is on record.
  datatype Phase = Looked | Holding | Working | Gone
  datatype Worker = Worker(job: Job, correlation: string, leaseSeconds: int, now: int, phase: Phase, run: nat)

  // From when to when a worker held the lease, for the theorems: the services do not keep it.
  datatype Tenure = Tenure(job: Job, worker: nat, from: int, until: int)

  datatype State = State(clock: int, leases: map<Job, Lease>, runs: seq<RunRow>, workers: seq<Worker>, tenures: seq<Tenure>)

  datatype Call =
    | TickCall(time: int)
    | StartCall(job: Job, correlation: string, leaseSeconds: Option<int>)
    | AcquireCall(worker: nat)
    | RecordCall(worker: nat)
    | SucceedCall(worker: nat, first: nat, second: nat, third: nat, fourth: nat)
    | FailCall(worker: nat)

  datatype Error =
    | InvalidCorrelation | EvidenceInvalid | DuplicateCorrelation | AlreadyRunning | InvalidLimit | NotThere | UniqueViolation

  datatype Reply = Done | WorkerReply(worker: nat) | SummaryReply(summary: Summary) | Refused(error: Error)

  const MAX_SAFE_INTEGER := 9_007_199_254_740_991

  // A delivery falls back to its default on a bad limit, maintenance refuses it.
  function LeaseSeconds(job: Job, asked: Option<int>): Option<int> {
    match job
    case Delivery => Some(if asked.Some? && 300 <= asked.value <= 900 then asked.value else 300)
    case Maintenance =>
      if asked.None? then Some(120) else if 30 <= asked.value <= 600 then asked else None
  }

  predicate Safe(count: nat) { count <= MAX_SAFE_INTEGER }

  // What a stored summary reads back as. A delivery's counts are checked one by one; maintenance looks only at the
  // correlation id and the status, whichever job wrote them.
  function StoredSummary(job: Job, row: RunRow, correlation: string): Option<Summary> {
    if row.summary.None? || row.summary.value.correlation != correlation then None
    else
      var stored := row.summary.value;
      if job == Maintenance then Some(stored)
      else if stored.DeliverySummary? && Safe(stored.delivered) && Safe(stored.failed) && Safe(stored.deadLettered)
              && Safe(stored.recovered) && Safe(stored.processed) && stored.processed == stored.delivered + stored.failed
      then Some(stored) else None
  }

  function UnderCorrelation(correlation: string): RunRow -> bool { (x: RunRow) => x.correlation == correlation }

  function RunOf(runs: seq<RunRow>, correlation: string): (r: Option<nat>)
    ensures r.Some? ==> r.value < |runs| && runs[r.value].correlation == correlation
    ensures r.None? <==> forall i :: 0 <= i < |runs| ==> runs[i].correlation != correlation
  {
    LastWhere(runs, UnderCorrelation(correlation))
  }

  // Reads the clock and looks for an earlier run.
  function Start(s: State, c: Call): (State, Reply)
    requires c.StartCall?
  {
    var seconds := LeaseSeconds(c.job, c.leaseSeconds);
    if seconds.None? then (s, Refused(InvalidLimit))
    else if |c.correlation| > 120 then (s, Refused(InvalidCorrelation))
    else
      var found := RunOf(s.runs, c.correlation);
      if found.Some? && s.runs[found.value].status == Succeeded && (c.job == Maintenance || s.runs[found.value].job == c.job) then
        var summary := StoredSummary(c.job, s.runs[found.value], c.correlation);
        if summary.Some? then (s, SummaryReply(summary.value)) else (s, Refused(EvidenceInvalid))
      else if found.Some? then (s, Refused(DuplicateCorrelation))
      else (s.(workers := s.workers + [Worker(c.job, c.correlation, seconds.value, s.clock, Looked, 0)]), WorkerReply(|s.workers|))
  }

  // Creates the job's lease, or takes it over if it ran out by the moment the worker started.
  function Acquire(s: State, c: Call): (State, Reply)
    requires c.AcquireCall?
  {
    if c.worker >= |s.workers| || s.workers[c.worker].phase != Looked then (s, Refused(NotThere))
    else
      var w := s.workers[c.worker];
      if w.job in s.leases && s.leases[w.job].expiresAt > w.now
      then (s.(workers := s.workers[c.worker := w.(phase := Gone)]), Refused(AlreadyRunning))
      else
        var until := w.now + w.leaseSeconds * 1000;
        (s.(leases := s.leases[w.job := Lease(c.worker, until)],
            workers := s.workers[c.worker := w.(phase := Holding)],
            tenures := s.tenures + [Tenure(w.job, c.worker, w.now, until)]),
         Done)
  }

  // Puts the run on record. Another worker may have used the correlation id since the look: then the worker is gone
  // with the lease in its hands.
  function Record(s: State, c: Call): (State, Reply)
    requires c.RecordCall?
  {
    if c.worker >= |s.workers| || s.workers[c.worker].phase != Holding then (s, Refused(NotThere))
    else
      var w := s.workers[c.worker];
      if RunOf(s.runs, w.correlation).Some?
      then (s.(workers := s.workers[c.worker := w.(phase := Gone)]), Refused(UniqueViolation))
      else
        (s.(runs := s.runs + [RunRow(w.job, w.correlation, Running, None)],
            workers := s.workers[c.worker := w.(phase := Working, run := |s.runs|)]),
         Done)
  }

  function SummaryOf(w: Worker, c: Call): Summary
    requires c.SucceedCall?
  {
    match w.job
    case Delivery => DeliverySummary(w.correlation, c.first, c.second, c.third, c.fourth, c.first + c.second)
    case Maintenance => MaintenanceSummary(w.correlation, c.first, c.second, c.third, c.first + c.second + c.third)
  }

  // The tenure of a worker ends when it gives the lease back.
  function Ended(tenures: seq<Tenure>, worker: nat, at: int): (r: seq<Tenure>)
    ensures |r| == |tenures|
    ensures forall i :: 0 <= i < |r| ==>
              r[i] == if tenures[i].worker == worker && at < tenures[i].until then tenures[i].(until := at) else tenures[i]
  {
    if tenures == [] then []
    else
      var last := tenures[|tenures| - 1];
      Ended(tenures[..|tenures| - 1], worker, at) + [if last.worker == worker && at < last.until then last.(until := at) else last]
  }

  // The lease ends now if the worker's token is still on it.
  function HandBack(s: State, worker: nat): State
    requires worker < |s.workers|
  {
    var w := s.workers[worker];
    if w.job in s.leases && s.leases[w.job].token == worker
    then s.(leases := s.leases[w.job := s.leases[w.job].(expiresAt := s.clock)], tenures := Ended(s.tenures, worker, s.clock))
    else s
  }

  function Finish(s: State, worker: nat, status: RunStatus, summary: Option<Summary>): State
    requires worker < |s.workers| && s.workers[worker].run < |s.runs|
  {
    var w := s.workers[worker];
    HandBack(s, worker).(runs := s.runs[w.run := s.runs[w.run].(status := status, summary := summary)],
                         workers := s.workers[worker := w.(phase := Gone)])
  }

  function Succeed(s: State, c: Call): (State, Reply)
    requires c.SucceedCall?
  {
    if c.worker >= |s.workers| || s.workers[c.worker].phase != Working || s.workers[c.worker].run >= |s.runs| then (s, Refused(NotThere))
    else
      var summary := SummaryOf(s.workers[c.worker], c);
      (Finish(s, c.worker, Succeeded, Some(summary)), SummaryReply(summary))
  }

  function Fail(s: State, c: Call): (State, Reply)
    requires c.FailCall?
  {
    if c.worker >= |s.workers| || s.workers[c.worker].phase != Working || s.workers[c.worker].run >= |s.runs| then (s, Refused(NotThere))
    else (Finish(s, c.worker, Failed, None), Done)
  }

  function Apply(s: State, c: Call): (State, Reply) {
    if c.TickCall? then (s.(clock := if c.time > s.clock then c.time else s.clock), Done)
    else if c.StartCall? then Start(s, c)
    else if c.AcquireCall? then Acquire(s, c)
    else if c.RecordCall? then Record(s, c)
    else if c.SucceedCall? then Succeed(s, c)
    else Fail(s, c)
  }

  function Run(s: State, calls: seq<Call>): State {
    if calls == [] then s else Apply(Run(s, calls[..|calls| - 1]), calls[|calls| - 1]).0
  }

  function Opening(clock: int): State { State(clock, map[], [], [], []) }
}
