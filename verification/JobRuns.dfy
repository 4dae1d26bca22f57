/** What holds over every run of the job table: every interleaving of the events of Jobs.dfy. */
module JobRuns {
  import opened Common
  import opened Jobs

  // ----- Runs

  predicate Init(s: State) { s.jobs == map[] && s.issued == {} }

  function Exec(s: State, es: seq<Event>): State {
    if es == [] then s else Apply(Exec(s, es[..|es| - 1]), es[|es| - 1])
  }

  predicate Run(s: State, es: seq<Event>) {
    es != [] ==> Run(s, es[..|es| - 1]) && Enabled(Exec(s, es[..|es| - 1]), es[|es| - 1])
  }

  lemma {:induction false} RunPrefix(s: State, es: seq<Event>, i: nat)
    requires Run(s, es) && i <= |es|
    ensures Run(s, es[..i])
    ensures i < |es| ==> Enabled(Exec(s, es[..i]), es[i]) && Exec(s, es[..i + 1]) == Apply(Exec(s, es[..i]), es[i])
  {
    if i == |es| {
      assert es[..i] == es;
    } else if i == |es| - 1 {
      assert es[..i + 1] == es;
    } else {
      var front := es[..|es| - 1];
      RunPrefix(s, front, i);
      assert front[..i] == es[..i] && front[..i + 1] == es[..i + 1] && front[i] == es[i];
    }
  }

  // ----- The invariant of every reachable state

  ghost predicate RowOk(s: State, id: JobId)
    requires id in s.jobs
  {
    var job := s.jobs[id];
    && 0 <= job.attempts <= job.maxAttempts
    && 0 < job.maxAttempts
    && (if job.status.Running? then job.Leased() && job.leaseToken.value in s.issued && job.attempts > 0
        else job.Unleased())
    && (job.status.Pending? ==> job.attempts < job.maxAttempts)
  }

  predicate SameActiveKey(a: Job, b: Job) {
    a.Active() && b.Active() && a.jobType == b.jobType && a.jobKey == b.jobKey
  }

  /** At most one pending or running row for each (type, key). */
  ghost predicate KeysUnique(jobs: Table) {
    forall a, b :: a in jobs && b in jobs && SameActiveKey(jobs[a], jobs[b]) ==> a == b
  }

  /** No token is on two rows. */
  ghost predicate TokensUnique(jobs: Table) {
    forall a, b :: a in jobs && b in jobs && jobs[a].leaseToken.Some? && jobs[a].leaseToken == jobs[b].leaseToken ==>
        a == b
  }

  ghost predicate Inv(s: State) {
    (forall id :: id in s.jobs ==> RowOk(s, id)) && KeysUnique(s.jobs) && TokensUnique(s.jobs)
  }

  /** What one step can do to the key and the token of one row. */
  lemma RowStep(s: State, e: Event, id: JobId)
    requires Enabled(s, e) && id in Apply(s, e).jobs
    ensures id !in s.jobs ==>
              e.Enqueue? && e.id == id && !KeyTaken(s.jobs, e.spec) && Apply(s, e).jobs[id] == NewJob(e.spec, s.now)
    ensures id in s.jobs ==>
              var a, b := s.jobs[id], Apply(s, e).jobs[id];
              && a.jobType == b.jobType && a.jobKey == b.jobKey
              && (b.Active() ==> a.Active())
              && (b.leaseToken.Some? ==>
                    b.leaseToken == a.leaseToken || (e.Claim? && e.id == id && b.leaseToken == Some(e.token)))
  {
    hide Precedes, SweepText, Truncated, Retries;
  }

  lemma RowStaysOk(s: State, e: Event, id: JobId)
    requires Inv(s) && Enabled(s, e) && id in Apply(s, e).jobs
    ensures RowOk(Apply(s, e), id)
  {
    hide Precedes, SweepText, Truncated, KeysUnique, TokensUnique, NewsInFlight;
    if id in s.jobs { assert RowOk(s, id); }
  }

  lemma InvPreserved(s: State, e: Event)
    requires Inv(s) && Enabled(s, e)
    ensures Inv(Apply(s, e))
  {
    KeysStayUnique(s, e);
    TokensStayUnique(s, e);
    hide Enabled, Apply, RowOk;
    forall id | id in Apply(s, e).jobs
      ensures RowOk(Apply(s, e), id)
    {
      RowStaysOk(s, e, id);
    }
  }

  lemma KeysStayUnique(s: State, e: Event)
    requires Inv(s) && Enabled(s, e)
    ensures KeysUnique(Apply(s, e).jobs)
  {
    hide Enabled, Apply, RowOk, TokensUnique;
    var t := Apply(s, e).jobs;
    forall a, b | a in t && b in t && SameActiveKey(t[a], t[b])
      ensures a == b
    {
      RowStep(s, e, a);
      RowStep(s, e, b);
      assert a in s.jobs && e.Enqueue? ==> s.jobs[a].HasKey(e.spec) && s.jobs[a].Active() ==> KeyTaken(s.jobs, e.spec);
      assert b in s.jobs && e.Enqueue? ==> s.jobs[b].HasKey(e.spec) && s.jobs[b].Active() ==> KeyTaken(s.jobs, e.spec);
    }
  }

  lemma TokensStayUnique(s: State, e: Event)
    requires Inv(s) && Enabled(s, e)
    ensures TokensUnique(Apply(s, e).jobs)
  {
    var t := Apply(s, e).jobs;
    assert e.Claim? ==> e.token !in s.issued;
    hide Enabled, Apply, KeysUnique;
    forall a, b | a in t && b in t && t[a].leaseToken.Some? && t[a].leaseToken == t[b].leaseToken
      ensures a == b
    {
      RowStep(s, e, a);
      RowStep(s, e, b);
      assert a in s.jobs ==> RowOk(s, a);
      assert b in s.jobs ==> RowOk(s, b);
    }
  }

  lemma {:induction false} ReachableInv(s: State, es: seq<Event>)
    requires Init(s) && Run(s, es)
    ensures Inv(Exec(s, es))
  {
    if es != [] {
      ReachableInv(s, es[..|es| - 1]);
      InvPreserved(Exec(s, es[..|es| - 1]), es[|es| - 1]);
    }
  }

  /** The queue's main invariant, spelled out for one reachable state. */
  lemma {:induction false} QueueInvariant(s: State, es: seq<Event>, id: JobId)
    requires Init(s) && Run(s, es) && id in Exec(s, es).jobs
    ensures var t := Exec(s, es); var job := t.jobs[id];
            && (job.leaseToken.Some? <==> job.status.Running?)
            && (job.status.Running? ==> job.Leased())
            && (job.status.Pending? ==> job.attempts < job.maxAttempts)
            && 0 <= job.attempts <= job.maxAttempts
            && (forall k :: k in t.jobs && SameActiveKey(t.jobs[k], job) ==> k == id)
  {
    ReachableInv(s, es);
    assert RowOk(Exec(s, es), id);
  }

  // ----- Fencing

  /** The token of the most recent claim of a job in a history. */
  function LastClaim(es: seq<Event>, id: JobId): Option<Token> {
    if es == [] then None
    else
      var e := es[|es| - 1];
      if e.Claim? && e.id == id then Some(e.token) else LastClaim(es[..|es| - 1], id)
  }

  function ClaimCount(es: seq<Event>, id: JobId): nat {
    if es == [] then 0
    else
      var e := es[|es| - 1];
      ClaimCount(es[..|es| - 1], id) + if e.Claim? && e.id == id then 1 else 0
  }

  /** The columns of the table are functions of the history. */
  ghost predicate MatchesHistory(s: State, es: seq<Event>) {
    && (forall id :: id in s.jobs ==> s.jobs[id].attempts == ClaimCount(es, id))
    && (forall id :: id !in s.jobs ==> ClaimCount(es, id) == 0)
    && (forall id :: id in s.jobs && s.jobs[id].status.Running? ==> s.jobs[id].leaseToken == LastClaim(es, id))
    && (forall i :: 0 <= i < |es| && es[i].Claim? ==> es[i].token in s.issued)
  }

  lemma {:induction false} HistoryMatches(s: State, es: seq<Event>)
    requires Init(s) && Run(s, es)
    ensures MatchesHistory(Exec(s, es), es)
  {
    if es != [] {
      var front, e := es[..|es| - 1], es[|es| - 1];
      HistoryMatches(s, front);
      ReachableInv(s, front);
      HistoryStep(Exec(s, front), front, e);
      assert front + [e] == es;
    }
  }

  lemma HistoryStep(t: State, front: seq<Event>, e: Event)
    requires Inv(t) && Enabled(t, e) && MatchesHistory(t, front)
    ensures MatchesHistory(Apply(t, e), front + [e])
  {
    hide Precedes, SweepText, Truncated, KeysUnique, TokensUnique, NewsInFlight, Eligible;
    var t', es := Apply(t, e), front + [e];
    assert es[..|es| - 1] == front;
    forall id
      ensures ClaimCount(es, id) == ClaimCount(front, id) + if e.Claim? && e.id == id then 1 else 0
      ensures LastClaim(es, id) == if e.Claim? && e.id == id then Some(e.token) else LastClaim(front, id)
    {
    }
    forall id | id in t'.jobs
      ensures t'.jobs[id].attempts == ClaimCount(es, id)
      ensures t'.jobs[id].status.Running? ==> t'.jobs[id].leaseToken == LastClaim(es, id)
    {
      if id in t.jobs { assert RowOk(t, id); }
    }
    forall i | 0 <= i < |es| && es[i].Claim?
      ensures es[i].token in t'.issued
    {
      if i < |front| { assert es[i] == front[i]; }
    }
  }

  /** The events that present a token. */
  predicate ByToken(e: Event, id: JobId, token: Token) {
    (e.Heartbeat? || e.Complete? || e.Fail?) && e.id == id && e.token == token
  }

  /**
   An operation by token takes effect only for the job's most recent claim and only while that
   claim's lease is unexpired; otherwise it changes nothing at all.
   */
  lemma TokenFence(s: State, es: seq<Event>, i: nat, id: JobId, token: Token)
    requires Init(s) && Run(s, es) && i < |es| && ByToken(es[i], id, token)
    ensures var t := Exec(s, es[..i]); var t' := Exec(s, es[..i + 1]);
            && (Owns(t, id, token) ==> LastClaim(es[..i], id) == Some(token) && t.jobs[id].LeaseLive(t.now))
            && (!Owns(t, id, token) ==> t' == t)
            && (LastClaim(es[..i], id) != Some(token) ==> t' == t)
  {
    RunPrefix(s, es, i);
    HistoryMatches(s, es[..i]);
  }

  lemma {:induction false} LastClaimIs(es: seq<Event>, k: nat, id: JobId)
    requires k < |es| && es[k].Claim? && es[k].id == id
    ensures LastClaim(es, id).Some?
    ensures exists m :: k <= m < |es| && es[m].Claim? && es[m].id == id && LastClaim(es, id) == Some(es[m].token)
  {
    var e := es[|es| - 1];
    if e.Claim? && e.id == id {
      assert LastClaim(es, id) == Some(es[|es| - 1].token);
    } else {
      var front := es[..|es| - 1];
      LastClaimIs(front, k, id);
      var m :| k <= m < |front| && front[m].Claim? && front[m].id == id && LastClaim(front, id) == Some(front[m].token);
      assert es[m] == front[m];
    }
  }

  /** Every claim gets a token that no earlier claim of any job had. */
  lemma ClaimsGetFreshTokens(s: State, es: seq<Event>, i: nat, k: nat)
    requires Init(s) && Run(s, es) && i < k < |es| && es[i].Claim? && es[k].Claim?
    ensures es[i].token != es[k].token
  {
    RunPrefix(s, es, k);
    HistoryMatches(s, es[..k]);
    assert es[..k][i] == es[i];
  }

  /** Holding the token means to be the latest claim of the running job; owning it, that the lease also lasts. */
  lemma {:induction false} HolderIsTheLatestClaim(s: State, es: seq<Event>, id: JobId, token: Token)
    requires Init(s) && Run(s, es)
    ensures var t := Exec(s, es);
            && (HoldsToken(t.jobs, id, token) <==>
                id in t.jobs && t.jobs[id].status.Running? && LastClaim(es, id) == Some(token))
            && (Owns(t, id, token) <==> HoldsToken(t.jobs, id, token) && t.jobs[id].LeaseLive(t.now))
  {
    HistoryMatches(s, es);
  }

  /** After a later claim of a job an older token of it passes no cancellation guard, whatever the lease times are. */
  lemma CancellationIsFenced(s: State, es: seq<Event>, i: nat, k: nat, m: nat, id: JobId)
    requires Init(s) && Run(s, es) && i < k < m <= |es|
    requires es[i].Claim? && es[i].id == id && es[k].Claim? && es[k].id == id
    ensures !HoldsToken(Exec(s, es[..m]).jobs, id, es[i].token)
  {
    var past := es[..m];
    RunPrefix(s, es, m);
    HolderIsTheLatestClaim(s, past, id, es[i].token);
    LastClaimIs(past, k, id);
    var j :| k <= j < |past| && past[j].Claim? && past[j].id == id && LastClaim(past, id) == Some(past[j].token);
    assert past[j] == es[j];
    ClaimsGetFreshTokens(s, es, i, j);
  }

  /** Once a job has been claimed again, the older claim's token is rejected forever. */
  lemma OlderTokenRejected(s: State, es: seq<Event>, i: nat, k: nat, m: nat)
    requires Init(s) && Run(s, es) && i < k < m < |es|
    requires es[i].Claim? && es[k].Claim? && es[i].id == es[k].id
    requires ByToken(es[m], es[i].id, es[i].token)
    ensures !Owns(Exec(s, es[..m]), es[i].id, es[i].token)
    ensures Exec(s, es[..m + 1]) == Exec(s, es[..m])
  {
    var id := es[i].id;
    var past := es[..m];
    assert past[k] == es[k];
    LastClaimIs(past, k, id);
    var j :| k <= j < |past| && past[j].Claim? && past[j].id == id && LastClaim(past, id) == Some(past[j].token);
    assert past[j] == es[j];
    ClaimsGetFreshTokens(s, es, i, j);
    TokenFence(s, es, m, id, es[i].token);
  }

  // ----- How long a lease lasts

  /**
   When a token's lease of a job ends, from the clock and the calls alone: a claim sets the end, a heartbeat before
   the end moves it, and a completion or failure before the end gives the job up.
   */
  function LeaseEnd(s: State, es: seq<Event>, id: JobId, token: Token): Option<Time> {
    if es == [] then None
    else
      var front, e := es[..|es| - 1], es[|es| - 1];
      var end, now := LeaseEnd(s, front, id, token), Exec(s, front).now;
      if e.Claim? && e.id == id && e.token == token then Some(now + e.seconds)
      else if ByToken(e, id, token) && end.Some? && now < end.value then
        (if e.Heartbeat? then Some(now + e.seconds) else None)
      else end
  }

  /** The row agrees with the lease that the history gives. */
  ghost predicate LeaseOk(t: State, end: Option<Time>, id: JobId, token: Token) {
    && (end.Some? ==> token in t.issued)
    && (Owns(t, id, token) <==> end.Some? && t.now < end.value)
    && (Owns(t, id, token) ==> t.jobs[id].leaseUntil == end)
  }

  lemma LeaseStep(t: State, e: Event, end: Option<Time>, id: JobId, token: Token)
    requires Inv(t) && Enabled(t, e) && LeaseOk(t, end, id, token)
    ensures LeaseOk(Apply(t, e),
                    if e.Claim? && e.id == id && e.token == token then Some(t.now + e.seconds)
                    else if ByToken(e, id, token) && end.Some? && t.now < end.value then
                      (if e.Heartbeat? then Some(t.now + e.seconds) else None)
                    else end, id, token)
  {
    hide Precedes, SweepText, Truncated, KeysUnique, TokensUnique, NewsInFlight;
    if id in t.jobs { assert RowOk(t, id); }
  }

  /**
   In every run a token owns a job exactly as long as the clock is before the end of its lease: a claim and every
   heartbeat in time buy exactly the seconds they ask for, and nothing that other workers do shortens them.
   */
  lemma {:induction false} OwnershipIsTheLease(s: State, es: seq<Event>, id: JobId, token: Token)
    requires Init(s) && Run(s, es)
    ensures var end := LeaseEnd(s, es, id, token);
            && (Owns(Exec(s, es), id, token) <==> end.Some? && Exec(s, es).now < end.value)
            && (end.Some? ==> token in Exec(s, es).issued)
            && (Owns(Exec(s, es), id, token) ==> Exec(s, es).jobs[id].leaseUntil == end)
  {
    hide Enabled, Apply, Owns;
    if es != [] {
      var front := es[..|es| - 1];
      OwnershipIsTheLease(s, front, id, token);
      ReachableInv(s, front);
      LeaseStep(Exec(s, front), es[|es| - 1], LeaseEnd(s, front, id, token), id, token);
    } else {
      NothingOwned(s, id, token);
    }
  }

  lemma NothingOwned(s: State, id: JobId, token: Token)
    requires Init(s)
    ensures !Owns(s, id, token)
  {
  }

  // ----- Ownership intervals

  /** A token that was issued and does not own a job never owns it again. */
  lemma OwnershipIsNotRegained(s: State, e: Event, id: JobId, token: Token)
    requires Inv(s) && Enabled(s, e)
    requires token in s.issued && !Owns(s, id, token)
    ensures !Owns(Apply(s, e), id, token)
    ensures token in Apply(s, e).issued
  {
    if id in s.jobs {
      assert RowOk(s, id);
    }
  }

  lemma {:induction false} OwnershipStaysLost(s: State, es: seq<Event>, i: nat, k: nat, id: JobId, token: Token)
    requires Init(s) && Run(s, es) && i <= k <= |es|
    requires token in Exec(s, es[..i]).issued && !Owns(Exec(s, es[..i]), id, token)
    ensures token in Exec(s, es[..k]).issued && !Owns(Exec(s, es[..k]), id, token)
    decreases k - i
  {
    if i < k {
      RunPrefix(s, es, i);
      ReachableInv(s, es[..i]);
      OwnershipIsNotRegained(Exec(s, es[..i]), es[i], id, token);
      OwnershipStaysLost(s, es, i + 1, k, id, token);
    }
  }

  /** The states in which a token owns a job form one interval of the run. */
  lemma OwnershipIsAnInterval(s: State, es: seq<Event>, i: nat, j: nat, k: nat, id: JobId, token: Token)
    requires Init(s) && Run(s, es) && i <= j <= k <= |es|
    requires Owns(Exec(s, es[..i]), id, token) && Owns(Exec(s, es[..k]), id, token)
    ensures Owns(Exec(s, es[..j]), id, token)
  {
    RunPrefix(s, es, i);
    ReachableInv(s, es[..i]);
    assert RowOk(Exec(s, es[..i]), id);
    if !Owns(Exec(s, es[..j]), id, token) {
      IssuedGrows(s, es, i, j);
      OwnershipStaysLost(s, es, j, k, id, token);
    }
  }

  lemma {:induction false} IssuedGrows(s: State, es: seq<Event>, i: nat, k: nat)
    requires Init(s) && Run(s, es) && i <= k <= |es|
    ensures Exec(s, es[..i]).issued <= Exec(s, es[..k]).issued
    decreases k - i
  {
    if i < k {
      RunPrefix(s, es, i);
      IssuedGrows(s, es, i + 1, k);
    }
  }

  /** When a job is claimed, every earlier claimant has already lost it, for good. */
  lemma ClaimsDoNotOverlap(s: State, es: seq<Event>, k: nat, m: nat, token: Token)
    requires Init(s) && Run(s, es) && k < |es| && es[k].Claim? && k <= m <= |es|
    requires token in Exec(s, es[..k]).issued
    ensures !Owns(Exec(s, es[..m]), es[k].id, token)
  {
    var id := es[k].id;
    RunPrefix(s, es, k);
    ReachableInv(s, es[..k]);
    var t := Exec(s, es[..k]);
    assert RowOk(t, id);
    assert !Owns(t, id, token);
    OwnershipStaysLost(s, es, k, m, id, token);
  }

  // ----- Bounded work

  /** Each job is claimed exactly as often as its row says, and at most `maxAttempts` times. */
  lemma ClaimsAreBounded(s: State, es: seq<Event>, id: JobId)
    requires Init(s) && Run(s, es) && id in Exec(s, es).jobs
    ensures ClaimCount(es, id) == Exec(s, es).jobs[id].attempts <= Exec(s, es).jobs[id].maxAttempts
  {
    HistoryMatches(s, es);
    ReachableInv(s, es);
    assert RowOk(Exec(s, es), id);
  }

  /** The status changes that a job can still make. */
  function Measure(job: Job): int {
    match job.status
    case Pending => 2 * (job.maxAttempts - job.attempts)
    case Running => 2 * (job.maxAttempts - job.attempts) + 1
    case _ => 0
  }

  /** Every step leaves a job's progress alone or spends some of its measure; a job in a final status never changes. */
  lemma MeasureDecreases(s: State, e: Event, id: JobId)
    requires Inv(s) && Enabled(s, e) && id in s.jobs
    ensures id in Apply(s, e).jobs
    ensures var a := s.jobs[id]; var b := Apply(s, e).jobs[id];
            && 0 <= Measure(b) <= Measure(a)
            && (b.status != a.status || b.attempts != a.attempts ==> Measure(b) < Measure(a))
            && (!a.Active() ==> b == a)
            && (a.Active() ==> 0 < Measure(a))
            && b.maxAttempts == a.maxAttempts && b.jobType == a.jobType && b.jobKey == a.jobKey
  {
    hide Precedes, SweepText, Truncated, KeysUnique, TokensUnique, NewsInFlight;
    assert RowOk(s, id);
  }

  /** The steps of a run that change the status or the attempts of a job. */
  function Changes(s: State, es: seq<Event>, id: JobId): nat {
    if es == [] then 0
    else
      var a, b := Exec(s, es[..|es| - 1]), Exec(s, es);
      Changes(s, es[..|es| - 1], id) +
      if id in a.jobs && id in b.jobs &&
          (b.jobs[id].status != a.jobs[id].status || b.jobs[id].attempts != a.jobs[id].attempts)
      then 1 else 0
  }

  /** A job changes status at most twice for each attempt it is allowed, however the run interleaves. */
  lemma {:induction false} ChangesAreBounded(s: State, es: seq<Event>, id: JobId)
    requires Init(s) && Run(s, es)
    ensures id !in Exec(s, es).jobs ==> Changes(s, es, id) == 0
    ensures id in Exec(s, es).jobs ==>
              Changes(s, es, id) + Measure(Exec(s, es).jobs[id]) <= 2 * Exec(s, es).jobs[id].maxAttempts
  {
    if es != [] {
      var front := es[..|es| - 1];
      ChangesAreBounded(s, front, id);
      ReachableInv(s, front);
      var t := Exec(s, front);
      if id in t.jobs {
        MeasureDecreases(t, es[|es| - 1], id);
      }
    }
  }

  /** No active job is ever stuck: once late enough, the next claim may take it or the sweep fails it. */
  lemma ActiveJobsAreNeverStuck(s: State, es: seq<Event>, id: JobId, now: Time, types: seq<JobType>, cap: nat)
    requires Init(s) && Run(s, es) && id in Exec(s, es).jobs
    requires var job := Exec(s, es).jobs[id];
             && job.Active()
             && job.jobType in types
             && job.runAfter <= now
             && (job.leaseUntil.Some? ==> job.leaseUntil.value <= now)
             && (job.jobType.ExtractCompanyNews? ==> |NewsInFlight(Exec(s, es).jobs) - {id}| < cap)
    ensures Eligible(Exec(s, es).jobs, now, types, cap, id) != Exhausted(Exec(s, es).jobs[id], now)
  {
    ReachableInv(s, es);
    assert RowOk(Exec(s, es), id);
  }

  // ----- The cap on company-news jobs

  /** If no claim of a run allowed more than `cap` company-news jobs, no state of it has more in flight. */
  lemma {:induction false} NewsNeverExceedsCap(s: State, es: seq<Event>, cap: nat)
    requires Init(s) && Run(s, es)
    requires forall i :: 0 <= i < |es| && es[i].Claim? ==> es[i].cap <= cap
    ensures |NewsInFlight(Exec(s, es).jobs)| <= cap
  {
    if es == [] {
      assert NewsInFlight(s.jobs) == {};
    } else {
      var front, e := es[..|es| - 1], es[|es| - 1];
      assert forall i :: 0 <= i < |front| ==> front[i] == es[i];
      NewsNeverExceedsCap(s, front, cap);
      NewsStep(Exec(s, front), e, cap);
    }
  }

  lemma NewsStep(t: State, e: Event, cap: nat)
    requires Enabled(t, e) && |NewsInFlight(t.jobs)| <= cap && (e.Claim? ==> e.cap <= cap)
    ensures |NewsInFlight(Apply(t, e).jobs)| <= cap
  {
    var before, after := NewsInFlight(t.jobs), NewsInFlight(Apply(t, e).jobs);
    if e.Claim? && t.jobs[e.id].jobType.ExtractCompanyNews? {
      assert after == (before - {e.id}) + {e.id};
      assert Eligible(t.jobs, t.now, e.types, e.cap, e.id);
    } else {
      assert after <= before;
      SubsetIsSmaller(after, before);
    }
  }

  lemma {:induction false} SubsetIsSmaller<T>(a: set<T>, b: set<T>)
    requires a <= b
    ensures |a| <= |b|
  {
    if a != {} {
      var x :| x in a;
      SubsetIsSmaller(a - {x}, b - {x});
    }
  }

  // ----- What coalescing promises

  /** Enqueueing twice leaves one row, due at the earlier time and with the higher priority. */
  lemma EnqueueIsIdempotent(s: State, spec: JobSpec, id: JobId)
    requires Inv(s) && Enabled(s, Enqueue(spec, id))
    ensures var t := Apply(s, Enqueue(spec, id));
            && Enabled(t, Enqueue(spec, id)) && Apply(t, Enqueue(spec, id)) == t
            && (forall other :: Enabled(t, Enqueue(spec, other)) ==> other == id)
            && (t.jobs[id].status.Pending? ==>
                t.jobs[id].runAfter <= spec.runAfter && t.jobs[id].priority >= spec.priority)
            && (id in s.jobs && s.jobs[id].status.Running? ==> t == s)
            && (forall k :: k in s.jobs && k != id ==> k in t.jobs && t.jobs[k] == s.jobs[k])
  {
    var t := Apply(s, Enqueue(spec, id));
    InvPreserved(s, Enqueue(spec, id));
    assert t.jobs[id].Active() && t.jobs[id].HasKey(spec);
    assert KeyTaken(t.jobs, spec);
    assert t.jobs[id := Coalesced(t.jobs[id], spec)] == t.jobs;
    if id in s.jobs && s.jobs[id].status.Running? {
      assert s.jobs[id := s.jobs[id]] == s.jobs;
    }
  }
}
