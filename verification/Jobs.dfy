/**
 The job table as a state machine.

 A statement (or a transaction of several statements) is one atomic step, and
 CURRENT_TIMESTAMP is the clock of the state it runs in.  An `Event` names a
 step together with everything the database, the caller or the UUID generator
 chose; `Enabled` says when that choice is possible and `Apply` gives the state
 it leads to.  The class `JobQueue` below holds the code itself, proved against
 these functions; the properties of whole runs are in JobRuns.dfy.
 */
module Jobs {
  import opened Common

  type JobId = nat
  type Token = nat
  type SourceId = nat
  type Time = int

  datatype JobType =
    | DiscoverCompany
    | ValidateCandidate
    | CrawlSource
    | CrawlContent
    | ExtractCompanyNews
    | ExportTarget
    | NormalizeBackfill

  datatype JobStatus = Pending | Running | Completed | Failed | Cancelled

  datatype JobSpec = JobSpec(
    jobType: JobType,
    jobKey: string,
    priority: int,
    runAfter: Time,
    maxAttempts: int,
    sourceId: Option<SourceId>,
    payload: string)

  /** One row of the table; an `Option` field is a nullable column. */
  datatype Job = Job(
    jobType: JobType,
    jobKey: string,
    status: JobStatus,
    priority: int,
    runAfter: Time,
    lockedBy: Option<string>,
    lockedAt: Option<Time>,
    heartbeatAt: Option<Time>,
    leaseUntil: Option<Time>,
    leaseToken: Option<Token>,
    attempts: int,
    maxAttempts: int,
    sourceId: Option<SourceId>,
    payload: string,
    lastError: Option<string>,
    createdAt: Time,
    completedAt: Option<Time>)
  {
    /** The rows that the partial unique index on (type, key) covers. */
    predicate Active() { status.Pending? || status.Running? }

    predicate HasKey(spec: JobSpec) { jobType == spec.jobType && jobKey == spec.jobKey }

    predicate LeaseExpired(now: Time) { leaseUntil.Some? && leaseUntil.value <= now }

    predicate LeaseLive(now: Time) { leaseUntil.Some? && leaseUntil.value > now }

    /** The five lease columns are all set. */
    predicate Leased() {
      lockedBy.Some? && lockedAt.Some? && heartbeatAt.Some? && leaseUntil.Some? && leaseToken.Some?
    }

    /** The five lease columns are all null. */
    predicate Unleased() {
      lockedBy.None? && lockedAt.None? && heartbeatAt.None? && leaseUntil.None? && leaseToken.None?
    }

    function WithoutLease(): Job {
      this.(lockedBy := None, lockedAt := None, heartbeatAt := None, leaseUntil := None, leaseToken := None)
    }
  }

  type Table = map<JobId, Job>

  // ----- Text of errors

  const MAX_ERROR_LENGTH: nat := 16384
  const SWEEP_ERROR := "worker lease expired after final attempt"
  const RECLAIM_ERROR := "previous worker lease expired"

  /** Whether byte offset `end` falls between two characters of `s`. */
  predicate CharBoundary(s: string, end: nat) {
    end == 0 || (s != [] && Utf8Len(s[0]) <= end && CharBoundary(s[1..], end - Utf8Len(s[0])))
  }

  function SliceTo(s: string, end: nat): (r: string)
    requires CharBoundary(s, end)
    ensures r <= s && ByteLen(r) == end
  {
    if end == 0 then [] else
      var rest := SliceTo(s[1..], end - Utf8Len(s[0]));
      assert rest <= s[1..] && s == [s[0]] + s[1..];
      [s[0]] + rest
  }

  /** A prefix of `s` ends at a character boundary, and it is what slicing there returns. */
  lemma {:induction false} PrefixIsSlice(s: string, p: string)
    requires p <= s
    ensures CharBoundary(s, ByteLen(p)) && SliceTo(s, ByteLen(p)) == p
  {
    if p != [] {
      assert p[1..] <= s[1..];
      PrefixIsSlice(s[1..], p[1..]);
      assert p == [p[0]] + p[1..];
    }
  }

  /** Shortens an error text to the longest prefix of whole characters that fits the column. */
  method TruncateError(error: string) returns (r: string)
    ensures r <= error && ByteLen(r) <= 16384
    ensures forall p :: p <= error && ByteLen(p) <= 16384 ==> |p| <= |r|
    ensures r == Truncated(error)
  {
    if ByteLen(error) <= MAX_ERROR_LENGTH {
      TruncatedIsLongest(error, error);
      return error;
    }
    var end: nat := MAX_ERROR_LENGTH;
    while !CharBoundary(error, end)
      invariant end <= MAX_ERROR_LENGTH
      invariant forall b: nat :: end < b <= MAX_ERROR_LENGTH ==> !CharBoundary(error, b)
      decreases end
    {
      end := end - 1;
    }
    r := SliceTo(error, end);
    forall p | p <= error && ByteLen(p) <= MAX_ERROR_LENGTH
      ensures |p| <= |r|
    {
      PrefixIsSlice(error, p);
      if |p| > |r| { LongerPrefix(r, p); }
    }
    TruncatedIsLongest(error, r);
  }

  /** The longest prefix within the limit, by scanning from the whole text downwards. */
  function Truncated(error: string): (r: string)
    ensures r <= error && ByteLen(r) <= MAX_ERROR_LENGTH
  {
    if ByteLen(error) <= MAX_ERROR_LENGTH then error else Truncated(error[..|error| - 1])
  }

  lemma {:induction false} LongerPrefix(p: string, q: string)
    requires p <= q && |p| < |q|
    ensures ByteLen(p) < ByteLen(q)
  {
    ByteLenConcat(p, q[|p|..]);
    assert q == p + q[|p|..];
  }

  lemma {:induction false} TruncatedIsLongest(error: string, r: string)
    requires r <= error && ByteLen(r) <= MAX_ERROR_LENGTH
    requires forall p :: p <= error && ByteLen(p) <= MAX_ERROR_LENGTH ==> |p| <= |r|
    ensures Truncated(error) == r
  {
    if ByteLen(error) > MAX_ERROR_LENGTH {
      assert |r| == |error| ==> r == error;
      TruncatedIsLongest(error[..|error| - 1], r);
    } else {
      assert error <= error;
    }
  }

  // ----- States and events

  datatype State = State(jobs: Table, now: Time, issued: set<Token>)

  datatype Event =
    | Enqueue(spec: JobSpec, id: JobId)
    | Sweep
    | Claim(id: JobId, token: Token, worker: string, seconds: int, types: seq<JobType>, cap: nat, locked: set<JobId>)
    | Heartbeat(id: JobId, token: Token, seconds: int)
    | Complete(id: JobId, token: Token)
    | Fail(id: JobId, token: Token, error: string, retryAt: Option<Time>)
    | CancelPending(ids: set<JobId>, reason: string)
    | Tick(to: Time)

  /** The CHECK constraints on a new row. */
  predicate ValidSpec(spec: JobSpec) {
    spec.maxAttempts > 0 && exists i :: 0 <= i < |spec.jobKey| && spec.jobKey[i] != ' '
  }

  predicate KeyTaken(jobs: Table, spec: JobSpec) {
    exists k :: k in jobs && jobs[k].Active() && jobs[k].HasKey(spec)
  }

  function NewJob(spec: JobSpec, now: Time): Job {
    Job(spec.jobType, spec.jobKey, Pending, spec.priority, spec.runAfter,
        None, None, None, None, None, 0, spec.maxAttempts, spec.sourceId, spec.payload, None, now, None)
  }

  /** ON CONFLICT: a pending row takes the earlier time and the higher priority, a running row stays. */
  function Coalesced(job: Job, spec: JobSpec): Job {
    if job.status.Pending?
    then job.(runAfter := Min(job.runAfter, spec.runAfter), priority := Max(job.priority, spec.priority))
    else job
  }

  predicate Exhausted(job: Job, now: Time) {
    job.status.Running? && job.LeaseExpired(now) && job.attempts >= job.maxAttempts
  }

  function SweepText(lastError: Option<string>): string {
    if lastError.None? || lastError.value == "" then SWEEP_ERROR else lastError.value + "\n" + SWEEP_ERROR
  }

  function Swept(job: Job, now: Time): Job {
    if Exhausted(job, now)
    then job.WithoutLease().(status := Failed, completedAt := Some(now), lastError := Some(SweepText(job.lastError)))
    else job
  }

  function SweptTable(jobs: Table, now: Time): Table {
    map k | k in jobs :: Swept(jobs[k], now)
  }

  predicate RunningNews(job: Job) { job.jobType.ExtractCompanyNews? && job.status.Running? }

  function NewsInFlight(jobs: Table): set<JobId> {
    set k | k in jobs && RunningNews(jobs[k])
  }

  /** The WHERE clause of the claim. */
  predicate Eligible(jobs: Table, now: Time, types: seq<JobType>, cap: nat, id: JobId)
    requires id in jobs
  {
    var job := jobs[id];
    && job.jobType in types
    && job.attempts < job.maxAttempts
    && ((job.status.Pending? && job.runAfter <= now) || (job.status.Running? && job.LeaseExpired(now)))
    && (job.jobType.ExtractCompanyNews? ==> |NewsInFlight(jobs) - {id}| < cap)
  }

  /** ORDER BY priority DESC, run_after, created_at. */
  predicate Precedes(a: Job, b: Job) {
    || a.priority > b.priority
    || (a.priority == b.priority && a.runAfter < b.runAfter)
    || (a.priority == b.priority && a.runAfter == b.runAfter && a.createdAt < b.createdAt)
  }

  /** The rows that a claim may take: eligible and not locked by another transaction. */
  function Claimable(jobs: Table, now: Time, types: seq<JobType>, cap: nat, locked: set<JobId>): set<JobId> {
    set k | k in jobs && k !in locked && Eligible(jobs, now, types, cap, k)
  }

  predicate BestClaim(jobs: Table, now: Time, types: seq<JobType>, cap: nat, locked: set<JobId>, id: JobId) {
    var claimable := Claimable(jobs, now, types, cap, locked);
    id in claimable && forall k :: k in claimable ==> !Precedes(jobs[k], jobs[id])
  }

  function Claimed(job: Job, token: Token, worker: string, seconds: int, now: Time): Job {
    job.(status := Running, lockedBy := Some(worker), lockedAt := Some(now), heartbeatAt := Some(now),
         leaseUntil := Some(now + seconds), leaseToken := Some(token), attempts := job.attempts + 1,
         lastError := if job.status.Running? then Some(RECLAIM_ERROR) else job.lastError,
         completedAt := None)
  }

  /** `token` holds a live lease on job `id`: what every operation by token checks. */
  predicate Owns(s: State, id: JobId, token: Token) {
    && id in s.jobs
    && s.jobs[id].leaseToken == Some(token)
    && s.jobs[id].status.Running?
    && s.jobs[id].LeaseLive(s.now)
  }

  /** `token` is the current token of the running job `id`, whether or not its lease has expired. */
  predicate HoldsToken(jobs: Table, id: JobId, token: Token) {
    id in jobs && jobs[id].leaseToken == Some(token) && jobs[id].status.Running?
  }

  function Renewed(job: Job, seconds: int, now: Time): Job {
    job.(heartbeatAt := Some(now), leaseUntil := Some(now + seconds))
  }

  function Finished(job: Job, now: Time): Job {
    job.WithoutLease().(status := Completed, completedAt := Some(now), lastError := None)
  }

  predicate Retries(job: Job, retryAt: Option<Time>) { retryAt.Some? && job.attempts < job.maxAttempts }

  function AfterFailure(job: Job, error: string, retryAt: Option<Time>, now: Time): Job {
    if Retries(job, retryAt)
    then job.WithoutLease().(status := Pending, runAfter := Max(retryAt.value, now),
                             lastError := Some(Truncated(error)), completedAt := None)
    else job.WithoutLease().(status := Failed, completedAt := Some(now), lastError := Some(Truncated(error)))
  }

  predicate Enabled(s: State, e: Event) {
    match e
    case Enqueue(spec, id) =>
      ValidSpec(spec) &&
      if KeyTaken(s.jobs, spec) then id in s.jobs && s.jobs[id].Active() && s.jobs[id].HasKey(spec)
      else id !in s.jobs
    case Sweep => true
    case Claim(id, token, _, seconds, types, cap, locked) =>
      seconds > 0 && token !in s.issued && BestClaim(s.jobs, s.now, types, cap, locked, id)
    case Heartbeat(_, _, seconds) => seconds > 0
    case Complete(_, _) => true
    case Fail(_, _, _, _) => true
    case CancelPending(ids, _) => forall k :: k in ids ==> k in s.jobs && s.jobs[k].status.Pending?
    case Tick(to) => s.now <= to
  }

  function Apply(s: State, e: Event): State {
    match e
    case Enqueue(spec, id) =>
      s.(jobs := s.jobs[id := if id in s.jobs then Coalesced(s.jobs[id], spec) else NewJob(spec, s.now)])
    case Sweep => s.(jobs := SweptTable(s.jobs, s.now))
    case Claim(id, token, worker, seconds, _, _, _) =>
      if id in s.jobs
      then s.(jobs := s.jobs[id := Claimed(s.jobs[id], token, worker, seconds, s.now)], issued := s.issued + {token})
      else s
    case Heartbeat(id, token, seconds) =>
      if Owns(s, id, token) then s.(jobs := s.jobs[id := Renewed(s.jobs[id], seconds, s.now)]) else s
    case Complete(id, token) =>
      if Owns(s, id, token) then s.(jobs := s.jobs[id := Finished(s.jobs[id], s.now)]) else s
    case Fail(id, token, error, retryAt) =>
      if Owns(s, id, token) then s.(jobs := s.jobs[id := AfterFailure(s.jobs[id], error, retryAt, s.now)]) else s
    case CancelPending(ids, reason) =>
      s.(jobs := map k | k in s.jobs ::
           if k in ids
           then s.jobs[k].(status := Cancelled, completedAt := Some(s.now), lastError := Some(reason))
           else s.jobs[k])
    case Tick(to) => s.(now := to)
  }

  // ----- The code

  datatype QueueError = ConstraintViolation | InvalidDuration | InvalidJobLease(id: JobId)
      | LeaseLost(id: JobId, token: Token)

  datatype ClaimedJob = ClaimedJob(id: JobId, worker: string, token: Token, leaseUntil: Time)

  datatype FailureOutcome = Retrying(runAfter: Time) | GaveUp

  const I64_MAX: int := 0x7FFF_FFFF_FFFF_FFFF

  /** A lease is a positive whole number of seconds. */
  function DurationSeconds(seconds: nat, nanos: nat): (r: Result<int, QueueError>)
    ensures r.Ok? <==> 0 < seconds <= I64_MAX && nanos == 0
    ensures r.Ok? ==> r.value == seconds
  {
    if seconds == 0 || nanos != 0 then Err(InvalidDuration)
    else if seconds <= I64_MAX then Ok(seconds)
    else Err(InvalidDuration)
  }

  class JobQueue {
    var jobs: Table
    // Every token that the UUID generator has handed out.
    ghost var issued: set<Token>

    ghost function At(now: Time): State reads this { State(jobs, now, issued) }

    constructor ()
      ensures jobs == map[] && issued == {}
    {
      jobs := map[];
      issued := {};
    }

    method EnqueueJob(spec: JobSpec, newId: JobId, now: Time) returns (r: Result<JobId, QueueError>)
      requires newId !in jobs
      modifies this`jobs
      ensures r.Ok? <==> ValidSpec(spec)
      ensures r.Err? ==> r.error == ConstraintViolation && jobs == old(jobs)
      ensures r.Ok? ==> Enabled(old(At(now)), Enqueue(spec, r.value))
      ensures r.Ok? ==> At(now) == Apply(old(At(now)), Enqueue(spec, r.value))
    {
      if !ValidSpec(spec) {
        return Err(ConstraintViolation);
      }
      if KeyTaken(jobs, spec) {
        var k :| k in jobs && jobs[k].Active() && jobs[k].HasKey(spec);
        var existing := jobs[k];
        if existing.status.Pending? {
          var runAfter := if existing.runAfter <= spec.runAfter then existing.runAfter else spec.runAfter;
          var priority := if existing.priority >= spec.priority then existing.priority else spec.priority;
          jobs := jobs[k := existing.(runAfter := runAfter, priority := priority)];
        } else {
          assert jobs[k := existing] == jobs;
        }
        return Ok(k);
      }
      jobs := jobs[newId := NewJob(spec, now)];
      return Ok(newId);
    }

    method FailExhaustedExpiredJobs(now: Time) returns (count: nat)
      modifies this`jobs
      ensures At(now) == Apply(old(At(now)), Sweep)
      ensures count == |set k | k in old(jobs) && Exhausted(old(jobs)[k], now)|
      ensures forall k :: k in jobs ==> !Exhausted(jobs[k], now)
    {
      var hit := set k | k in jobs && Exhausted(jobs[k], now);
      jobs := map k | k in jobs ::
        if k in hit
        then jobs[k].(status := Failed, completedAt := Some(now), lockedBy := None, lockedAt := None,
                      heartbeatAt := None, leaseUntil := None, leaseToken := None,
                      lastError := Some(SweepText(jobs[k].lastError)))
        else jobs[k];
      count := |hit|;
    }

    /** The row that the claim query returns, or none; `locked` are the rows it skips. */
    method SelectCandidate(now: Time, types: seq<JobType>, cap: nat, locked: set<JobId>)
      returns (r: Option<JobId>)
      ensures r.None? <==> Claimable(jobs, now, types, cap, locked) == {}
      ensures r.Some? ==> BestClaim(jobs, now, types, cap, locked, r.value)
    {
      r := None;
      var claimable := Claimable(jobs, now, types, cap, locked);
      var todo := claimable;
      while todo != {}
        invariant todo <= claimable
        invariant r.None? <==> todo == claimable
        invariant r.Some? ==> r.value in claimable
        invariant r.Some? ==> forall k :: k in claimable && k !in todo ==> !Precedes(jobs[k], jobs[r.value])
        decreases |todo|
      {
        var k :| k in todo;
        if r.None? || Precedes(jobs[k], jobs[r.value]) {
          r := Some(k);
        }
        todo := todo - {k};
      }
    }

    /** The second transaction of a claim: lease the best row that nobody else has locked. */
    method LeaseCandidate(worker: string, seconds: int, types: seq<JobType>, cap: nat,
                          locked: set<JobId>, token: Token, now: Time)
      returns (r: Result<Option<ClaimedJob>, QueueError>)
      requires seconds > 0 && token !in issued
      modifies this
      ensures r.Ok?
      ensures r.value.None? <==> Claimable(old(jobs), now, types, cap, locked) == {}
      ensures r.value.None? ==> jobs == old(jobs) && issued == old(issued)
      ensures r.value.Some? ==>
                var e := Claim(r.value.value.id, token, worker, seconds, types, cap, locked);
                Enabled(old(At(now)), e) && At(now) == Apply(old(At(now)), e)
      ensures r.value.Some? ==> r.value.value == ClaimedJob(r.value.value.id, worker, token, now + seconds)
      ensures r.value.Some? ==> Owns(At(now), r.value.value.id, token)
    {
      var candidate := SelectCandidate(now, types, cap, locked);
      if candidate.None? {
        return Ok(None);
      }
      var id := candidate.value;
      var job := jobs[id];
      var lastError := if job.status.Running? then Some(RECLAIM_ERROR) else job.lastError;
      var updated := job.(status := Running, lockedBy := Some(worker), lockedAt := Some(now),
                          heartbeatAt := Some(now), leaseUntil := Some(now + seconds),
                          leaseToken := Some(token), attempts := job.attempts + 1,
                          lastError := lastError, completedAt := None);
      jobs := jobs[id := updated];
      issued := issued + {token};
      if updated.lockedBy.None? || updated.leaseToken.None? || updated.leaseUntil.None? {
        return Err(InvalidJobLease(id));
      }
      return Ok(Some(ClaimedJob(id, updated.lockedBy.value, updated.leaseToken.value, updated.leaseUntil.value)));
    }

    /** A whole claim when no other transaction comes between its two transactions. */
    method ClaimJob(worker: string, seconds: nat, nanos: nat, types: seq<JobType>, cap: nat,
                    locked: set<JobId>, token: Token, sweepAt: Time, claimAt: Time)
      returns (r: Result<Option<ClaimedJob>, QueueError>)
      requires token !in issued
      modifies this
      ensures types == [] || cap == 0 ==> r == Ok(None) && jobs == old(jobs) && issued == old(issued)
      ensures types != [] && cap > 0 && DurationSeconds(seconds, nanos).Err? ==>
                r == Err(InvalidDuration) && jobs == old(jobs) && issued == old(issued)
      ensures types != [] && cap > 0 && DurationSeconds(seconds, nanos).Ok? ==>
                var swept := State(SweptTable(old(jobs), sweepAt), claimAt, old(issued));
                && r.Ok?
                && (r.value.None? <==> Claimable(swept.jobs, claimAt, types, cap, locked) == {})
                && (r.value.None? ==> At(claimAt) == swept)
                && (r.value.Some? ==>
                      var e := Claim(r.value.value.id, token, worker, seconds, types, cap, locked);
                      Enabled(swept, e) && At(claimAt) == Apply(swept, e))
    {
      if types == [] || cap == 0 {
        return Ok(None);
      }
      var lease := DurationSeconds(seconds, nanos);
      if lease.Err? {
        return Err(lease.error);
      }
      var _ := FailExhaustedExpiredJobs(sweepAt);
      r := LeaseCandidate(worker, lease.value, types, cap, locked, token, claimAt);
    }

    method HeartbeatJob(id: JobId, token: Token, seconds: nat, nanos: nat, now: Time)
      returns (r: Result<bool, QueueError>)
      modifies this`jobs
      ensures r.Err? <==> DurationSeconds(seconds, nanos).Err?
      ensures r.Err? ==> jobs == old(jobs)
      ensures r.Ok? ==> r.value == Owns(old(At(now)), id, token)
      ensures r.Ok? ==>
                var e := Heartbeat(id, token, seconds); Enabled(old(At(now)), e) && At(now) == Apply(old(At(now)), e)
      ensures r == Ok(true) ==>
                id in jobs && jobs[id].leaseUntil == Some(now + seconds) && jobs[id].heartbeatAt == Some(now)
    {
      var lease := DurationSeconds(seconds, nanos);
      if lease.Err? {
        return Err(lease.error);
      }
      if id in jobs && jobs[id].leaseToken == Some(token) && jobs[id].status.Running? && jobs[id].LeaseLive(now) {
        jobs := jobs[id := jobs[id].(heartbeatAt := Some(now), leaseUntil := Some(now + lease.value))];
        return Ok(true);
      }
      return Ok(false);
    }

    method CompleteJob(id: JobId, token: Token, now: Time) returns (updated: bool)
      modifies this`jobs
      ensures updated == Owns(old(At(now)), id, token)
      ensures At(now) == Apply(old(At(now)), Complete(id, token))
    {
      if id in jobs && jobs[id].leaseToken == Some(token) && jobs[id].status.Running? && jobs[id].LeaseLive(now) {
        jobs := jobs[id := jobs[id].(status := Completed, completedAt := Some(now), lockedBy := None,
                                     lockedAt := None, heartbeatAt := None, leaseUntil := None,
                                     leaseToken := None, lastError := None)];
        return true;
      }
      return false;
    }

    method RecordJobFailure(id: JobId, token: Token, error: string, retryAt: Option<Time>, now: Time)
      returns (r: Result<FailureOutcome, QueueError>)
      modifies this`jobs
      ensures r.Ok? <==> Owns(old(At(now)), id, token)
      ensures r.Err? ==> r.error == LeaseLost(id, token) && jobs == old(jobs)
      ensures At(now) == Apply(old(At(now)), Fail(id, token, error, retryAt))
      ensures r.Ok? ==>
                r.value == if Retries(old(jobs)[id], retryAt) then Retrying(Max(retryAt.value, now)) else GaveUp
    {
      if !(id in jobs && jobs[id].leaseToken == Some(token) && jobs[id].status.Running? && jobs[id].LeaseLive(now)) {
        return Err(LeaseLost(id, token));
      }
      var text := TruncateError(error);
      var job := jobs[id];
      if retryAt.Some? && job.attempts < job.maxAttempts {
        var runAfter := if retryAt.value >= now then retryAt.value else now;
        jobs := jobs[id := job.(status := Pending, runAfter := runAfter, lockedBy := None, lockedAt := None,
                                heartbeatAt := None, leaseUntil := None, leaseToken := None,
                                lastError := Some(text), completedAt := None)];
        return Ok(Retrying(runAfter));
      }
      jobs := jobs[id := job.(status := Failed, completedAt := Some(now), lockedBy := None, lockedAt := None,
                              heartbeatAt := None, leaseUntil := None, leaseToken := None,
                              lastError := Some(text))];
      return Ok(GaveUp);
    }

    /** Cancels the pending crawls of a source that is disabled or whose recipe is retired. */
    method CancelPendingCrawls(source: SourceId, reason: string, now: Time)
      modifies this`jobs
      ensures var ids := PendingCrawls(old(jobs), source);
              && Enabled(old(At(now)), CancelPending(ids, reason))
              && At(now) == Apply(old(At(now)), CancelPending(ids, reason))
      ensures forall k :: k in old(jobs) ==>
                var job := old(jobs)[k];
                && k in jobs
                && (jobs[k] != job <==>
                    job.jobType == CrawlSource && job.status == Pending && job.sourceId == Some(source))
                && (jobs[k] != job ==> jobs[k].status == Cancelled && jobs[k].lastError == Some(reason))
    {
      CancelPendingCrawlsAmong(source, jobs.Keys, reason, now);
      assert old(PendingCrawls(jobs, source) * jobs.Keys) == old(PendingCrawls(jobs, source));
    }

    /** Cancels those of them that are among the given jobs. */
    method CancelPendingCrawlsAmong(source: SourceId, among: set<JobId>, reason: string, now: Time)
      modifies this`jobs
      ensures var ids := PendingCrawls(old(jobs), source) * among;
              && Enabled(old(At(now)), CancelPending(ids, reason))
              && At(now) == Apply(old(At(now)), CancelPending(ids, reason))
    {
      jobs := map k | k in jobs ::
        if jobs[k].jobType.CrawlSource? && jobs[k].status.Pending? && jobs[k].sourceId == Some(source) && k in among
        then jobs[k].(status := Cancelled, completedAt := Some(now), lastError := Some(reason))
        else jobs[k];
    }
  }

  function PendingCrawls(jobs: Table, source: SourceId): set<JobId> {
    set k | k in jobs && jobs[k].jobType.CrawlSource? && jobs[k].status.Pending? && jobs[k].sourceId == Some(source)
  }
}
