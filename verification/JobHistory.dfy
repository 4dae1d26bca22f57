/** Every column of a job as a function of the events of its run, and which jobs may be enqueued and claimed. */
module JobHistory {
  import opened Common
  import opened Jobs
  import opened JobRuns

  // ----- Which events move a job

  /** The lease of this token on the row is running. */
  predicate LeaseRuns(t: State, id: JobId, token: Token) {
    && id in t.jobs && t.jobs[id].status.Running? && t.jobs[id].leaseToken == Some(token)
    && t.jobs[id].leaseUntil.Some? && t.now < t.jobs[id].leaseUntil.value
  }

  /** The lease of the row is over, and with it the last attempt that the job is allowed. */
  predicate Spent(t: State, id: JobId) {
    && id in t.jobs && t.jobs[id].status.Running? && t.jobs[id].attempts == t.jobs[id].maxAttempts
    && t.jobs[id].leaseUntil.Some? && t.jobs[id].leaseUntil.value <= t.now
  }

  /** Whether an event changes the status of a job or gives it to another worker. */
  predicate Moves(t: State, e: Event, id: JobId) {
    match e
    case Claim(k, _, _, _, _, _, _) => k == id
    case Complete(k, token) => k == id && LeaseRuns(t, id, token)
    case Fail(k, token, _, _) => k == id && LeaseRuns(t, id, token)
    case Sweep => Spent(t, id)
    case CancelPending(ids, _) => id in ids
    case _ => false
  }

  /** Whether a failed job is tried again. */
  predicate TriesAgain(t: State, e: Event, id: JobId)
    requires id in t.jobs
  {
    e.Fail? && e.retryAt.Some? && t.jobs[id].attempts < t.jobs[id].maxAttempts
  }

  predicate IsPending(t: State, id: JobId) { id in t.jobs && t.jobs[id].status.Pending? }

  // ----- What the history says

  /** The call that created the row, and when. */
  function Creation(s: State, es: seq<Event>, id: JobId): Option<(JobSpec, Time)> {
    if es == [] then None
    else
      var front, e := es[..|es| - 1], es[|es| - 1];
      if Creation(s, front, id).Some? then Creation(s, front, id)
      else if e.Enqueue? && e.id == id then Some((e.spec, Exec(s, front).now))
      else None
  }

  /** The last event that moved the job, when, and whether it left the job to be tried again. */
  function LastMove(s: State, es: seq<Event>, id: JobId): Option<(Event, Time, bool)> {
    if es == [] then None
    else
      var front, e := es[..|es| - 1], es[|es| - 1];
      var t := Exec(s, front);
      if Moves(t, e, id) then Some((e, t.now, id in t.jobs && TriesAgain(t, e, id))) else LastMove(s, front, id)
  }

  /** The last sign of life under the lease: the claim or a heartbeat in time; when, and for how many seconds. */
  function LastBeat(s: State, es: seq<Event>, id: JobId): Option<(Time, int)> {
    if es == [] then None
    else
      var front, e := es[..|es| - 1], es[|es| - 1];
      var t := Exec(s, front);
      if (e.Claim? && e.id == id) || (e.Heartbeat? && e.id == id && LeaseRuns(t, id, e.token))
      then Some((t.now, e.seconds))
      else LastBeat(s, front, id)
  }

  /** The earliest time asked for while the job was pending, or the time of its last retry. */
  function DueTime(s: State, es: seq<Event>, id: JobId): Time {
    if es == [] then 0
    else
      var front, e := es[..|es| - 1], es[|es| - 1];
      var t, before := Exec(s, front), DueTime(s, front, id);
      if e.Enqueue? && e.id == id && id !in t.jobs then e.spec.runAfter
      else if e.Enqueue? && e.id == id && IsPending(t, id) then
        (if e.spec.runAfter < before then e.spec.runAfter else before)
      else if e.Fail? && Moves(t, e, id) && id in t.jobs && TriesAgain(t, e, id) then
        (if e.retryAt.value < t.now then t.now else e.retryAt.value)
      else before
  }

  /** The highest priority asked for while the job was pending. */
  function TopPriority(s: State, es: seq<Event>, id: JobId): int {
    if es == [] then 0
    else
      var front, e := es[..|es| - 1], es[|es| - 1];
      var t, before := Exec(s, front), TopPriority(s, front, id);
      if e.Enqueue? && e.id == id && id !in t.jobs then e.spec.priority
      else if e.Enqueue? && e.id == id && IsPending(t, id) && e.spec.priority > before then e.spec.priority
      else before
  }

  /** The error text; a sweep adds a line to what is there, and a claim of a pending job leaves it. */
  function ErrorText(s: State, es: seq<Event>, id: JobId): Option<string> {
    if es == [] then None
    else
      var front, e := es[..|es| - 1], es[|es| - 1];
      var t, before := Exec(s, front), ErrorText(s, front, id);
      if !Moves(t, e, id) then before
      else match e
        case Claim(_, _, _, _, _, _, _) => if IsPending(t, id) then before else Some("previous worker lease expired")
        case Complete(_, _) => None
        case Fail(_, _, error, _) => Some(Truncated(error))
        case CancelPending(_, reason) => Some(reason)
        case Sweep =>
          if before.None? || before.value == "" then Some("worker lease expired after final attempt")
          else Some(before.value + "\n" + "worker lease expired after final attempt")
        case _ => before
  }

  // ----- What the columns are

  ghost predicate SpecColumns(job: Job, creation: Option<(JobSpec, Time)>) {
    && creation.Some?
    && var (spec, at) := creation.value;
       && job.jobType == spec.jobType && job.jobKey == spec.jobKey && job.maxAttempts == spec.maxAttempts
       && job.sourceId == spec.sourceId && job.payload == spec.payload && job.createdAt == at
  }

  ghost predicate LeaseColumns(job: Job, worker: string, token: Token, at: Time, beat: Option<(Time, int)>) {
    && job.lockedBy == Some(worker) && job.lockedAt == Some(at) && job.leaseToken == Some(token)
    && beat.Some? && job.heartbeatAt == Some(beat.value.0) && job.leaseUntil == Some(beat.value.0 + beat.value.1)
  }

  predicate NoLease(job: Job) {
    job.lockedBy.None? && job.lockedAt.None? && job.heartbeatAt.None? && job.leaseUntil.None? && job.leaseToken.None?
  }

  ghost predicate StatusColumns(job: Job, last: Option<(Event, Time, bool)>, beat: Option<(Time, int)>) {
    match last
    case None => job.status.Pending? && job.completedAt.None? && NoLease(job)
    case Some((Claim(_, token, worker, _, _, _, _), at, _)) =>
      job.status.Running? && job.completedAt.None? && LeaseColumns(job, worker, token, at, beat)
    case Some((Complete(_, _), at, _)) => job.status.Completed? && job.completedAt == Some(at) && NoLease(job)
    case Some((Fail(_, _, _, _), at, again)) =>
      && NoLease(job)
      && if again then job.status.Pending? && job.completedAt.None?
         else job.status.Failed? && job.completedAt == Some(at)
    case Some((Sweep, at, _)) => job.status.Failed? && job.completedAt == Some(at) && NoLease(job)
    case Some((CancelPending(_, _), at, _)) => job.status.Cancelled? && job.completedAt == Some(at) && NoLease(job)
    case Some(_) => false
  }

  ghost predicate QueueColumns(job: Job, s: State, es: seq<Event>, id: JobId) {
    && job.runAfter == DueTime(s, es, id) && job.priority == TopPriority(s, es, id)
    && job.lastError == ErrorText(s, es, id)
  }

  // ----- One more event

  lemma SpecStep(t: State, e: Event, creation: Option<(JobSpec, Time)>, id: JobId)
    requires Enabled(t, e) && id in Apply(t, e).jobs
    requires if id in t.jobs then SpecColumns(t.jobs[id], creation) else creation.None?
    ensures SpecColumns(Apply(t, e).jobs[id],
                        if creation.None? && e.Enqueue? && e.id == id then Some((e.spec, t.now)) else creation)
  {
    hide Precedes, SweepText, Truncated, NewsInFlight, Exhausted;
  }

  lemma StatusStep(t: State, e: Event, last: Option<(Event, Time, bool)>, beat: Option<(Time, int)>, id: JobId)
    requires Inv(t) && Enabled(t, e) && id in Apply(t, e).jobs
    requires if id in t.jobs then StatusColumns(t.jobs[id], last, beat) else last.None? && beat.None?
    ensures StatusColumns(Apply(t, e).jobs[id],
                          if Moves(t, e, id) then Some((e, t.now, id in t.jobs && TriesAgain(t, e, id))) else last,
                          if (e.Claim? && e.id == id) || (e.Heartbeat? && e.id == id && LeaseRuns(t, id, e.token))
                          then Some((t.now, e.seconds)) else beat)
  {
    hide Precedes, SweepText, Truncated, NewsInFlight, KeysUnique, TokensUnique;
    if id in t.jobs { assert RowOk(t, id); }
  }

  lemma RankStep(s: State, front: seq<Event>, e: Event, id: JobId)
    requires Inv(Exec(s, front)) && Enabled(Exec(s, front), e) && id in Apply(Exec(s, front), e).jobs
    requires var t := Exec(s, front); id in t.jobs ==>
               t.jobs[id].runAfter == DueTime(s, front, id) && t.jobs[id].priority == TopPriority(s, front, id)
    ensures var job, es := Apply(Exec(s, front), e).jobs[id], front + [e];
            job.runAfter == DueTime(s, es, id) && job.priority == TopPriority(s, es, id)
  {
    hide Precedes, Truncated, SweepText, NewsInFlight, KeysUnique, TokensUnique, Exec, KeyTaken;
    var t := Exec(s, front);
    assert (front + [e])[..|front|] == front;
    if id in t.jobs { assert RowOk(t, id); }
  }

  lemma ErrorStep(s: State, front: seq<Event>, e: Event, id: JobId)
    requires Inv(Exec(s, front)) && Enabled(Exec(s, front), e) && id in Apply(Exec(s, front), e).jobs
    requires var t := Exec(s, front);
             ErrorText(s, front, id) == if id in t.jobs then t.jobs[id].lastError else None
    ensures Apply(Exec(s, front), e).jobs[id].lastError == ErrorText(s, front + [e], id)
  {
    hide Precedes, Truncated, NewsInFlight, KeysUnique, TokensUnique, Exec, KeyTaken;
    var t := Exec(s, front);
    assert (front + [e])[..|front|] == front;
    if id in t.jobs { assert RowOk(t, id); }
  }

  lemma NotThere(t: State, e: Event, id: JobId)
    requires Enabled(t, e) && id !in t.jobs
    ensures !Moves(t, e, id)
    ensures id in Apply(t, e).jobs <==> e.Enqueue? && e.id == id
    ensures !(e.Claim? && e.id == id)
    ensures e.Heartbeat? ==> !LeaseRuns(t, id, e.token)
  {
  }

  lemma RowStays(t: State, e: Event, id: JobId)
    requires id in t.jobs
    ensures id in Apply(t, e).jobs
  {
  }

  ghost predicate JobColumns(job: Job, s: State, es: seq<Event>, id: JobId) {
    && SpecColumns(job, Creation(s, es, id))
    && job.attempts == ClaimCount(es, id)
    && StatusColumns(job, LastMove(s, es, id), LastBeat(s, es, id))
    && QueueColumns(job, s, es, id)
  }

  /**
   In every reachable state a job is what its history says: created by the first call for it, claimed as often as it
   counts, due and ranked by the calls and retries, in the status and with the error of the last event that moved it,
   and under a lease exactly while that was a claim, for the seconds that the last claim or heartbeat in time asked
   for.
   */
  lemma {:induction false} JobsFollowHistory(s: State, es: seq<Event>, id: JobId)
    requires Init(s) && Run(s, es)
    ensures id in Exec(s, es).jobs ==> JobColumns(Exec(s, es).jobs[id], s, es, id)
    ensures id !in Exec(s, es).jobs ==>
              && Creation(s, es, id).None? && LastMove(s, es, id).None? && LastBeat(s, es, id).None?
              && ErrorText(s, es, id).None?
  {
    hide Enabled, Apply, SpecColumns, StatusColumns, Moves, LeaseRuns, TriesAgain;
    if es != [] {
      var front, e := es[..|es| - 1], es[|es| - 1];
      assert front + [e] == es;
      var t := Exec(s, front);
      JobsFollowHistory(s, front, id);
      ReachableInv(s, front);
      HistoryMatches(s, es);
      if id in Apply(t, e).jobs {
        if id !in t.jobs { NotThere(t, e, id); }
        SpecStep(t, e, Creation(s, front, id), id);
        StatusStep(t, e, LastMove(s, front, id), LastBeat(s, front, id), id);
        RankStep(s, front, e, id);
        ErrorStep(s, front, e, id);
        if id in t.jobs { CreatedOnce(t.jobs[id], Creation(s, front, id)); }
      } else {
        if id in t.jobs { RowStays(t, e, id); }
        NotThere(t, e, id);
      }
    }
  }

  lemma CreatedOnce(job: Job, creation: Option<(JobSpec, Time)>)
    requires SpecColumns(job, creation)
    ensures creation.Some?
  {
  }

  // ----- The clock

  function LastTick(es: seq<Event>): Option<Time> {
    if es == [] then None else if es[|es| - 1].Tick? then Some(es[|es| - 1].to) else LastTick(es[..|es| - 1])
  }

  /** The clock shows the time of the last tick and never goes back. */
  lemma {:induction false} ClockFollowsTicks(s: State, es: seq<Event>)
    requires Run(s, es)
    ensures Exec(s, es).now == (if LastTick(es).Some? then LastTick(es).value else s.now) >= s.now
  {
    hide Coalesced, NewJob, SweptTable, Claimed, Owns, Renewed, Finished, AfterFailure, KeyTaken, BestClaim;
    if es != [] { ClockFollowsTicks(s, es[..|es| - 1]); }
  }

  // ----- What may be enqueued

  /** The key is not blank, and the job is allowed an attempt. */
  predicate Acceptable(spec: JobSpec) { spec.maxAttempts >= 1 && !forall c :: c in spec.jobKey ==> c == ' ' }

  /**
   A job may be enqueued exactly if its spec is acceptable: onto the pending or running row of its type and key if there
   is one, which is then the only one, and else as any new row.
   */
  lemma EnqueueIsPossible(s: State, spec: JobSpec, id: JobId)
    requires Inv(s)
    ensures Enabled(s, Enqueue(spec, id)) <==>
              && Acceptable(spec)
              && if id in s.jobs
                 then && s.jobs[id].jobType == spec.jobType && s.jobs[id].jobKey == spec.jobKey
                      && (s.jobs[id].status.Pending? || s.jobs[id].status.Running?)
                 else
                   forall k :: k in s.jobs && s.jobs[k].jobType == spec.jobType && s.jobs[k].jobKey == spec.jobKey ==>
                     !s.jobs[k].status.Pending? && !s.jobs[k].status.Running?
  {
    if ValidSpec(spec) {
      var i :| 0 <= i < |spec.jobKey| && spec.jobKey[i] != ' ';
      assert spec.jobKey[i] in spec.jobKey;
    }
  }

  // ----- What may be claimed

  /** A job that a worker may be given: pending and due, or left over by a worker whose lease is over. */
  predicate Waiting(s: State, types: seq<JobType>, cap: nat, id: JobId) {
    && id in s.jobs && s.jobs[id].jobType in types && s.jobs[id].attempts < s.jobs[id].maxAttempts
    && (|| (s.jobs[id].status.Pending? && s.jobs[id].runAfter <= s.now)
        || (s.jobs[id].status.Running? && s.jobs[id].leaseUntil.Some? && s.jobs[id].leaseUntil.value <= s.now))
    && (s.jobs[id].jobType.ExtractCompanyNews? ==> |OtherNews(s, id)| < cap)
  }

  /** The other company-news jobs that are running. */
  function OtherNews(s: State, id: JobId): set<JobId> {
    set k | k in s.jobs && k != id && s.jobs[k].jobType.ExtractCompanyNews? && s.jobs[k].status.Running?
  }

  lemma WaitingIsEligible(s: State, types: seq<JobType>, cap: nat, id: JobId)
    requires id in s.jobs
    ensures Waiting(s, types, cap, id) <==> Eligible(s.jobs, s.now, types, cap, id)
  {
    assert OtherNews(s, id) == NewsInFlight(s.jobs) - {id};
  }

  /**
   A claim takes a waiting job that no other transaction has locked, with a token never issued before, and passes over
   waiting jobs only if none of them has a higher priority, or the same and is due or was created earlier.
   */
  lemma ClaimTakesTheFirstWaiting(s: State, e: Event, other: JobId)
    requires Enabled(s, e) && e.Claim?
    ensures e.seconds > 0 && e.token !in s.issued && e.id !in e.locked && Waiting(s, e.types, e.cap, e.id)
    ensures Waiting(s, e.types, e.cap, other) && other !in e.locked ==>
              var a, b := s.jobs[e.id], s.jobs[other];
              if a.priority != b.priority then a.priority > b.priority
              else if a.runAfter != b.runAfter then a.runAfter < b.runAfter
              else a.createdAt <= b.createdAt
  {
    WaitingIsEligible(s, e.types, e.cap, e.id);
    if other in s.jobs { WaitingIsEligible(s, e.types, e.cap, other); }
    hide Eligible;
    assert e.id in Claimable(s.jobs, s.now, e.types, e.cap, e.locked);
    if Waiting(s, e.types, e.cap, other) && other !in e.locked {
      assert other in Claimable(s.jobs, s.now, e.types, e.cap, e.locked);
    }
  }

  /** Nothing is left to claim exactly if every waiting job is locked by another transaction. */
  lemma NothingToClaim(s: State, types: seq<JobType>, cap: nat, locked: set<JobId>)
    ensures Claimable(s.jobs, s.now, types, cap, locked) == {} <==>
            forall k :: Waiting(s, types, cap, k) ==> k in locked
  {
    forall k | k in s.jobs
      ensures Waiting(s, types, cap, k) <==> Eligible(s.jobs, s.now, types, cap, k)
    {
      WaitingIsEligible(s, types, cap, k);
    }
    hide Eligible;
    if k :| Waiting(s, types, cap, k) && k !in locked {
      assert k in Claimable(s.jobs, s.now, types, cap, locked);
    }
  }
}
