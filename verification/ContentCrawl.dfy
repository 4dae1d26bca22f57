/**
 Content crawling: every attempt at an article is a row of content_crawl_attempts, and
 content_crawl_state says for each item whether one is running.  Batches, completions and
 cancellations write both tables in one transaction.
 */
module ContentCrawl {
  import opened Common
  import Feed = FeedItems
  import Jobs

  type AttemptId = nat
  type JobId = nat
  type ItemId = Feed.ItemId
  type SourceId = Feed.SourceId
  type Time = int

  const I32_MAX: nat := 0x7FFF_FFFF

  /** The longest span that chrono represents, the largest i64 of milliseconds, in nanoseconds. */
  const MAX_DURATION: nat := 0x7FFF_FFFF_FFFF_FFFF * 1_000_000

  datatype AttemptStatus = Running | Succeeded | Failed | Cancelled

  datatype Attempt = Attempt(
    item: ItemId,
    job: JobId,
    status: AttemptStatus,
    startedAt: Time,
    finishedAt: Option<Time>,
    retryable: Option<bool>,
    reason: Option<string>)

  datatype CrawlStatus = Idle | InProgress | Fetched | Failing | PermanentFailure

  datatype CrawlState = CrawlState(
    status: CrawlStatus,
    lastAttemptAt: Option<Time>,
    lastSuccessAt: Option<Time>,
    nextAttemptAt: Option<Time>,
    attemptCount: nat,
    consecutiveFailures: nat,
    lastReason: Option<string>,
    contentChars: Option<nat>)

  type Attempts = map<AttemptId, Attempt>
  type States = map<ItemId, CrawlState>

  const SUPERSEDED := "superseded_attempt"
  const JOB_CANCELLED := "job_cancelled"

  // ----- Closing the running attempts of a job

  function RunningOf(attempts: Attempts, job: JobId): set<AttemptId> {
    set a | a in attempts && attempts[a].job == job && attempts[a].status.Running?
  }

  function ItemsOf(attempts: Attempts, ids: set<AttemptId>): set<ItemId>
    requires ids <= attempts.Keys
  {
    set a | a in ids :: attempts[a].item
  }

  function Closed(attempts: Attempts, job: JobId, reason: string, now: Time): Attempts {
    map a | a in attempts ::
      if a in RunningOf(attempts, job)
      then attempts[a].(status := Cancelled, finishedAt := Some(now), retryable := Some(true), reason := Some(reason))
      else attempts[a]
  }

  /** The items whose attempt was closed fall back to failing, due at once; `penalty` counts it as a failure. */
  function Released(states: States, items: set<ItemId>, reason: string, penalty: nat, now: Time): States {
    map k | k in states ::
      if k in items && states[k].status.InProgress?
      then states[k].(status := Failing, nextAttemptAt := Some(now), lastReason := Some(reason),
                      consecutiveFailures := states[k].consecutiveFailures + penalty)
      else states[k]
  }

  // ----- Choosing a batch

  /** What the selection reads besides the two tables. */
  datatype Selection = Selection(now: Time, refreshBefore: Time, openSources: set<SourceId>, locked: set<ItemId>)

  predicate Due(states: States, id: ItemId, sel: Selection) {
    id in states ==>
      var st := states[id];
      || ((st.status.Idle? || st.status.Failing?) && (st.nextAttemptAt.None? || st.nextAttemptAt.value <= sel.now))
      || (st.status.Fetched? && st.lastSuccessAt.Some? && st.lastSuccessAt.value <= sel.refreshBefore)
  }

  predicate Candidate(items: Feed.Table, states: States, id: ItemId, sel: Selection)
    requires id in items
  {
    && !items[id].isPrivate
    && items[id].source in sel.openSources
    && (items[id].publishedAt.Some? ==> items[id].publishedAt.value <= sel.now)
    && Due(states, id, sel)
  }

  function Candidates(items: Feed.Table, states: States, sel: Selection): set<ItemId> {
    set k | k in items && k !in sel.locked && Candidate(items, states, k, sel)
  }

  function Urgency(states: States, id: ItemId): int {
    if id !in states then 0 else if states[id].status.Failing? then 1 else 2
  }

  function SortTime(item: Feed.Item): Time {
    if item.publishedAt.Some? then item.publishedAt.value else item.createdAt
  }

  /** ORDER BY urgency, COALESCE(published_at, created_at) DESC, id. */
  predicate Earlier(items: Feed.Table, states: States, a: ItemId, b: ItemId)
    requires a in items && b in items
  {
    var ua, ub, ta, tb := Urgency(states, a), Urgency(states, b), SortTime(items[a]), SortTime(items[b]);
    ua < ub || (ua == ub && (ta > tb || (ta == tb && a < b)))
  }

  function Elements(ids: seq<ItemId>): set<ItemId> { set i | 0 <= i < |ids| :: ids[i] }

  predicate PicksFirst(picked: seq<ItemId>, items: Feed.Table, states: States, sel: Selection, limit: nat) {
    var pool := Candidates(items, states, sel);
    && |picked| <= limit
    && (forall i :: 0 <= i < |picked| ==> picked[i] in pool)
    && (forall i, j :: 0 <= i < j < |picked| ==> Earlier(items, states, picked[i], picked[j]))
    && (forall i, k :: 0 <= i < |picked| && k in pool && k !in Elements(picked) ==>
        Earlier(items, states, picked[i], k))
    && (|picked| < limit ==> Elements(picked) == pool)
  }

  function NewAttempt(item: ItemId, job: JobId, now: Time): Attempt {
    Attempt(item, job, Running, now, None, None, None)
  }

  function ClaimedState(states: States, id: ItemId, now: Time): CrawlState {
    if id in states
    then states[id].(status := InProgress, lastAttemptAt := Some(now), nextAttemptAt := None,
                     attemptCount := states[id].attemptCount + 1, lastReason := None)
    else CrawlState(InProgress, Some(now), None, None, 1, 0, None, None)
  }

  function AttemptsClaimed(attempts: Attempts, picked: seq<ItemId>, ids: seq<AttemptId>, job: JobId,
                           now: Time): Attempts
    requires |picked| == |ids|
  {
    if picked == [] then attempts else
      var n := |picked| - 1;
      AttemptsClaimed(attempts, picked[..n], ids[..n], job, now)[ids[n] := NewAttempt(picked[n], job, now)]
  }

  function StatesClaimed(states: States, picked: seq<ItemId>, now: Time): States {
    if picked == [] then states else
      var n := |picked| - 1;
      var before := StatesClaimed(states, picked[..n], now);
      before[picked[n] := ClaimedState(before, picked[n], now)]
  }

  predicate Distinct(ids: seq<nat>) { forall i, j :: 0 <= i < j < |ids| ==> ids[i] != ids[j] }

  // ----- States and events

  datatype State = State(attempts: Attempts, states: States, items: Feed.Table)

  datatype Event =
    | BeginBatch(job: JobId, sel: Selection, limit: nat, picked: seq<ItemId>, ids: seq<AttemptId>)
    | Succeed(attempt: AttemptId, item: ItemId, obs: Feed.Observation, mark: Feed.Json, refreshAt: Time)
    | Miss(attempt: AttemptId, item: ItemId, reason: string, retryable: bool, nextAt: Option<Time>, now: Time)
    | Cancel(job: JobId, holdsToken: bool, now: Time)
    | Other(feed: Feed.Event)

  predicate IsRunning(attempts: Attempts, attempt: AttemptId, item: ItemId) {
    attempt in attempts && attempts[attempt].item == item && attempts[attempt].status.Running?
  }

  function StatesSuperseded(s: State, job: JobId, now: Time): States {
    Released(s.states, ItemsOf(s.attempts, RunningOf(s.attempts, job)), SUPERSEDED, 0, now)
  }

  predicate Enabled(s: State, e: Event) {
    match e
    case BeginBatch(job, sel, limit, picked, ids) =>
      && PicksFirst(picked, s.items, StatesSuperseded(s, job, sel.now), sel, limit)
      && |ids| == |picked| && Distinct(ids) && forall i :: 0 <= i < |ids| ==> ids[i] !in s.attempts
    case Other(feed) => Feed.Enabled(s.items, feed)
    case _ => true
  }

  /** A completion is kept only if its attempt is still running and, to store content, its item still public. */
  predicate Takes(s: State, e: Event) {
    match e
    case Succeed(attempt, item, _, _, _) => IsRunning(s.attempts, attempt, item) && item in s.items &&
        !s.items[item].isPrivate
    case Miss(attempt, item, _, _, _, _) => IsRunning(s.attempts, attempt, item)
    case Cancel(_, holdsToken, _) => holdsToken
    case _ => true
  }

  function AttemptsAfter(s: State, e: Event): Attempts {
    match e
    case BeginBatch(job, sel, _, picked, ids) =>
      var closed := Closed(s.attempts, job, SUPERSEDED, sel.now);
      if |picked| == |ids| then AttemptsClaimed(closed, picked, ids, job, sel.now) else closed
    case Succeed(attempt, item, obs, _, _) =>
      if attempt in s.attempts
      then s.attempts[attempt := s.attempts[attempt].(status := Succeeded, finishedAt := Some(obs.fetchedAt),
                                                      retryable := Some(false), reason := None)]
      else s.attempts
    case Miss(attempt, item, reason, retryable, _, now) =>
      if attempt in s.attempts
      then s.attempts[attempt := s.attempts[attempt].(status := Failed, finishedAt := Some(now),
                                                      retryable := Some(retryable), reason := Some(reason))]
      else s.attempts
    case Cancel(job, _, now) => Closed(s.attempts, job, JOB_CANCELLED, now)
    case Other(_) => s.attempts
  }

  function StatesAfter(s: State, e: Event): States {
    match e
    case BeginBatch(job, sel, _, picked, _) => StatesClaimed(StatesSuperseded(s, job, sel.now), picked, sel.now)
    case Succeed(_, item, obs, _, refreshAt) =>
      if item in s.states
      then s.states[item := s.states[item].(status := Fetched, lastSuccessAt := Some(obs.fetchedAt),
                                            nextAttemptAt := Some(refreshAt),
                                            consecutiveFailures := 0, lastReason := None,
                                            contentChars := Some(|obs.bodyText|))]
      else s.states
    case Miss(_, item, reason, _, nextAt, _) =>
      if item in s.states
      then s.states[item := s.states[item].(status := if nextAt.None? then PermanentFailure else Failing,
                                            nextAttemptAt := nextAt,
                                            consecutiveFailures := s.states[item].consecutiveFailures + 1,
                                            lastReason := Some(reason))]
      else s.states
    case Cancel(job, _, now) => Released(s.states, ItemsOf(s.attempts, RunningOf(s.attempts, job)), JOB_CANCELLED, 1,
                                         now)
    case Other(_) => s.states
  }

  function ItemsAfter(s: State, e: Event): Feed.Table {
    match e
    case Succeed(_, item, obs, mark, _) => Feed.Apply(s.items, Feed.Hydrate(item, obs, mark))
    case Other(feed) => Feed.Apply(s.items, feed)
    case _ => s.items
  }

  function Apply(s: State, e: Event): State {
    if Takes(s, e) then State(AttemptsAfter(s, e), StatesAfter(s, e), ItemsAfter(s, e)) else s
  }

  // ----- The two tables agree

  function AttemptsFor(attempts: Attempts, item: ItemId): set<AttemptId> {
    set a | a in attempts && attempts[a].item == item
  }

  ghost predicate OneRunning(attempts: Attempts) {
    forall a, b, item :: IsRunning(attempts, a, item) && IsRunning(attempts, b, item) ==> a == b
  }

  ghost predicate Agrees(attempts: Attempts, states: States, item: ItemId) {
    && ((item in states && states[item].status.InProgress?) <==> exists a :: IsRunning(attempts, a, item))
    && |AttemptsFor(attempts, item)| == if item in states then states[item].attemptCount else 0
  }

  ghost predicate Inv(s: State) {
    OneRunning(s.attempts) && forall item :: Agrees(s.attempts, s.states, item)
  }

  // ----- The code

  datatype ContentError =
    | NegativeLimit
    | InvalidDuration
    | InvalidUrl(id: ItemId)
    | ContentTooLong
    | AttemptNotRunning(attempt: AttemptId)
    | ItemNotPublic(item: ItemId)
    | StateNotRunning(item: ItemId)

  datatype Claimed = Claimed(attempt: AttemptId, item: ItemId, attemptCount: nat)

  class ContentStore {
    var attempts: Attempts
    var states: States
    const feed: Feed.FeedStore

    ghost function Abs(): State reads this, feed { State(attempts, states, feed.items) }

    constructor (feed: Feed.FeedStore)
      ensures this.feed == feed && attempts == map[] && states == map[]
    {
      this.feed := feed;
      attempts, states := map[], map[];
    }

    method PickCandidates(sel: Selection, limit: nat) returns (picked: seq<ItemId>)
      ensures PicksFirst(picked, feed.items, states, sel, limit)
    {
      var pool := Candidates(feed.items, states, sel);
      var todo := pool;
      picked := [];
      while |picked| < limit && todo != {}
        invariant |picked| <= limit && todo == pool - Elements(picked) && Elements(picked) <= pool
        invariant forall i :: 0 <= i < |picked| ==> picked[i] in pool
        invariant forall i, j :: 0 <= i < j < |picked| ==> Earlier(feed.items, states, picked[i], picked[j])
        invariant forall i, k :: 0 <= i < |picked| && k in todo ==> Earlier(feed.items, states, picked[i], k)
        decreases todo
      {
        var first := Foremost(todo);
        assert Elements(picked + [first]) == Elements(picked) + {first} by {
          assert forall i :: 0 <= i < |picked| ==> (picked + [first])[i] == picked[i];
          assert (picked + [first])[|picked|] == first;
        }
        picked := picked + [first];
        todo := todo - {first};
      }
      assert forall k :: k in pool && k !in Elements(picked) ==> k in todo;
    }

    method Foremost(pool: set<ItemId>) returns (r: ItemId)
      requires pool != {} && pool <= feed.items.Keys
      ensures r in pool && forall k :: k in pool && k != r ==> Earlier(feed.items, states, r, k)
    {
      r :| r in pool;
      var todo := pool - {r};
      while todo != {}
        invariant todo <= pool && r in pool && r !in todo
        invariant forall k :: k in pool && k !in todo && k != r ==> Earlier(feed.items, states, r, k)
        decreases |todo|
      {
        var k :| k in todo;
        todo := todo - {k};
        if Earlier(feed.items, states, k, r) {
          r := k;
        }
      }
    }

    method CancelRunning(job: JobId, reason: string, penalty: nat, now: Time) returns (count: nat)
      modifies this
      ensures attempts == Closed(old(attempts), job, reason, now)
      ensures states == Released(old(states), ItemsOf(old(attempts), RunningOf(old(attempts), job)), reason, penalty,
                                 now)
      ensures count == |RunningOf(old(attempts), job)|
    {
      var running := RunningOf(attempts, job);
      var hit := ItemsOf(attempts, running);
      attempts := map a | a in attempts ::
        if a in running
        then attempts[a].(status := Cancelled, finishedAt := Some(now), retryable := Some(true), reason := Some(reason))
        else attempts[a];
      if hit != {} {
        states := map k | k in states ::
          if k in hit && states[k].status.InProgress?
          then states[k].(status := Failing, nextAttemptAt := Some(now), lastReason := Some(reason),
                          consecutiveFailures := states[k].consecutiveFailures + penalty)
          else states[k];
      } else {
        assert Released(states, hit, reason, penalty, now) == states;
      }
      count := |running|;
    }

    /** Claims a batch for a job, after closing what an earlier attempt of the same job left running. */
    method BeginContentCrawlBatch(job: JobId, sel: Selection, batchSize: int, parseable: set<string>,
                                  newIds: seq<AttemptId>)
      returns (r: Result<seq<Claimed>, ContentError>, ghost picked: seq<ItemId>)
      requires |newIds| >= |feed.items| && Distinct(newIds)
      requires forall i :: 0 <= i < |newIds| ==> newIds[i] !in attempts
      modifies this
      ensures batchSize < 0 ==> r == Err(NegativeLimit)
      ensures r.Err? ==> attempts == old(attempts) && states == old(states)
      ensures batchSize >= 0 ==> PicksFirst(picked, feed.items, StatesSuperseded(old(Abs()), job, sel.now), sel,
                                            batchSize)
      ensures batchSize >= 0 ==> (r.Ok? <==> forall i :: 0 <= i < |picked| ==> feed.items[picked[i]].url in parseable)
      ensures r.Ok? ==>
                && |picked| <= |newIds|
                && var e := BeginBatch(job, sel, batchSize, picked, newIds[..|picked|]);
                   Enabled(old(Abs()), e) && Abs() == Apply(old(Abs()), e)
      ensures r.Ok? ==>
                && |r.value| == |picked|
                && forall i :: 0 <= i < |picked| ==> r.value[i].attempt == newIds[i] && r.value[i].item == picked[i]
    {
      hide PicksFirst, Candidates, Closed, Released, ItemsOf, RunningOf, Elements, AttemptsClaimed, StatesClaimed;
      picked := [];
      if batchSize < 0 {
        return Err(NegativeLimit), picked;
      }
      var savedAttempts, savedStates := attempts, states;
      ghost var s := Abs();
      var _ := CancelRunning(job, SUPERSEDED, 0, sel.now);
      var rows := PickCandidates(sel, batchSize);
      picked := rows;
      PicksAreFew(rows, feed.items, states, sel, batchSize);
      r := ClaimRows(job, rows, newIds[..|rows|], parseable, sel.now);
      if r.Err? {
        attempts, states := savedAttempts, savedStates;
        return r, picked;
      }
      FreshPrefix(newIds, |rows|);
      return r, picked;
    }

    /** Opens an attempt for each selected row, in order, until a stored URL does not parse. */
    method ClaimRows(job: JobId, rows: seq<ItemId>, ids: seq<AttemptId>, parseable: set<string>, now: Time)
      returns (r: Result<seq<Claimed>, ContentError>)
      requires |ids| == |rows| && forall i :: 0 <= i < |rows| ==> rows[i] in feed.items
      modifies this
      ensures r.Ok? <==> forall i :: 0 <= i < |rows| ==> feed.items[rows[i]].url in parseable
      ensures r.Ok? ==>
                && attempts == AttemptsClaimed(old(attempts), rows, ids, job, now)
                && states == StatesClaimed(old(states), rows, now)
                && |r.value| == |rows|
                && forall i :: 0 <= i < |rows| ==> r.value[i].attempt == ids[i] && r.value[i].item == rows[i]
    {
      ghost var attempts0, states0 := attempts, states;
      var claims: seq<Claimed> := [];
      for i := 0 to |rows|
        invariant |claims| == i
        invariant attempts == AttemptsClaimed(attempts0, rows[..i], ids[..i], job, now)
        invariant states == StatesClaimed(states0, rows[..i], now)
        invariant forall k :: 0 <= k < i ==> claims[k].attempt == ids[k] && claims[k].item == rows[k]
        invariant forall k :: 0 <= k < i ==> feed.items[rows[k]].url in parseable
      {
        var id := rows[i];
        assert rows[..i + 1][..i] == rows[..i] && ids[..i + 1][..i] == ids[..i];
        attempts := attempts[ids[i] := Attempt(id, job, Running, now, None, None, None)];
        var st := if id in states
                  then states[id].(status := InProgress, lastAttemptAt := Some(now), nextAttemptAt := None,
                                   attemptCount := states[id].attemptCount + 1, lastReason := None)
                  else CrawlState(InProgress, Some(now), None, None, 1, 0, None, None);
        states := states[id := st];
        if feed.items[id].url !in parseable {
          return Err(InvalidUrl(id));
        }
        claims := claims + [Claimed(ids[i], id, st.attemptCount)];
      }
      assert rows[..|rows|] == rows && ids[..|ids|] == ids;
      return Ok(claims);
    }

    /** Stores the content of a running attempt; the item is due again `refreshAfter` nanoseconds after its fetch. */
    method CompleteSuccess(attempt: AttemptId, item: ItemId, obs: Feed.Observation, mark: Feed.Json, refreshAfter: nat)
      returns (r: Result<(), ContentError>)
      requires Inv(Abs())
      modifies this, feed
      ensures r == if refreshAfter > MAX_DURATION then Err(InvalidDuration)
                   else if |obs.bodyText| > I32_MAX then Err(ContentTooLong)
                   else if !IsRunning(old(attempts), attempt, item) then Err(AttemptNotRunning(attempt))
                   else if item !in old(feed.items) || old(feed.items)[item].isPrivate then Err(ItemNotPublic(item))
                   else Ok(())
      ensures r.Ok? ==>
                var e := Succeed(attempt, item, obs, mark, obs.fetchedAt + refreshAfter);
                Takes(old(Abs()), e) && Abs() == Apply(old(Abs()), e)
      ensures r.Err? ==> Abs() == old(Abs())
    {
      if refreshAfter > MAX_DURATION {
        return Err(InvalidDuration);
      }
      if |obs.bodyText| > I32_MAX {
        return Err(ContentTooLong);
      }
      var savedAttempts, savedItems := attempts, feed.items;
      if attempt !in attempts || attempts[attempt].item != item || !attempts[attempt].status.Running? {
        return Err(AttemptNotRunning(attempt));
      }
      assert Agrees(attempts, states, item);
      attempts := attempts[attempt := attempts[attempt].(status := Succeeded, finishedAt := Some(obs.fetchedAt),
                                                         retryable := Some(false), reason := None)];
      var hydrated := feed.HydrateItem(item, obs, mark);
      if hydrated.Err? {
        attempts := savedAttempts;
        return Err(ItemNotPublic(item));
      }
      if item !in states || !states[item].status.InProgress? {
        return Err(StateNotRunning(item));
      }
      states := states[item := states[item].(status := Fetched, lastSuccessAt := Some(obs.fetchedAt),
                                             nextAttemptAt := Some(obs.fetchedAt + refreshAfter),
                                             consecutiveFailures := 0,
                                             lastReason := None, contentChars := Some(|obs.bodyText|))];
      return Ok(());
    }

    method CompleteFailure(attempt: AttemptId, item: ItemId, reason: string, retryable: bool, nextAt: Option<Time>,
                           now: Time)
      returns (r: Result<(), ContentError>)
      requires Inv(Abs())
      modifies this
      ensures Abs() == Apply(old(Abs()), Miss(attempt, item, reason, retryable, nextAt, now))
      ensures r == if IsRunning(old(attempts), attempt, item) then Ok(()) else Err(AttemptNotRunning(attempt))
    {
      if attempt !in attempts || attempts[attempt].item != item || !attempts[attempt].status.Running? {
        return Err(AttemptNotRunning(attempt));
      }
      assert Agrees(attempts, states, item);
      attempts := attempts[attempt := attempts[attempt].(status := Failed, finishedAt := Some(now),
                                                         retryable := Some(retryable), reason := Some(reason))];
      if item !in states || !states[item].status.InProgress? {
        return Err(StateNotRunning(item));
      }
      var status := if nextAt.None? then PermanentFailure else Failing;
      states := states[item := states[item].(status := status, nextAttemptAt := nextAt,
                                             consecutiveFailures := states[item].consecutiveFailures + 1,
                                             lastReason := Some(reason))];
      return Ok(());
    }

    /** Closes the running attempts of a job for the holder of its token, expired or not, and for nobody else. */
    method CancelForJob(queue: Jobs.JobQueue, job: JobId, token: Jobs.Token, now: Time) returns (count: nat)
      modifies this
      ensures var holds := Jobs.HoldsToken(queue.jobs, job, token);
              && Abs() == Apply(old(Abs()), Cancel(job, holds, now))
              && count == if holds then |RunningOf(old(attempts), job)| else 0
    {
      if !(job in queue.jobs && queue.jobs[job].leaseToken == Some(token) && queue.jobs[job].status.Running?) {
        return 0;
      }
      count := CancelRunning(job, JOB_CANCELLED, 1, now);
    }
  }

  lemma FreshPrefix(ids: seq<nat>, n: nat)
    requires Distinct(ids) && n <= |ids|
    ensures Distinct(ids[..n])
  {
  }

  lemma PicksAreFew(picked: seq<ItemId>, items: Feed.Table, states: States, sel: Selection, limit: nat)
    requires PicksFirst(picked, items, states, sel, limit)
    ensures |picked| <= |items| && Distinct(picked) && |Elements(picked)| == |picked|
    ensures forall i :: 0 <= i < |picked| ==> picked[i] in items
  {
    forall i, j | 0 <= i < j < |picked|
      ensures picked[i] != picked[j]
    {
      assert Earlier(items, states, picked[i], picked[j]);
    }
    DistinctSize(picked);
    SubsetSize(Elements(picked), items.Keys);
  }

  lemma {:induction false} DistinctSize(ids: seq<nat>)
    requires Distinct(ids)
    ensures |Elements(ids)| == |ids|
  {
    if ids == [] {
      assert Elements(ids) == {};
    } else {
      var front, last := ids[..|ids| - 1], ids[|ids| - 1];
      DistinctSize(front);
      assert Elements(ids) == Elements(front) + {last} by {
        assert forall i :: 0 <= i < |front| ==> front[i] == ids[i];
      }
      assert last !in Elements(front);
    }
  }

  lemma {:induction false} SubsetSize(a: set<ItemId>, b: set<ItemId>)
    requires a <= b
    ensures |a| <= |b|
  {
    if a != {} {
      var x :| x in a;
      SubsetSize(a - {x}, b - {x});
    }
  }
}
