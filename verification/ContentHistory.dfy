/** Attempts, state rows and items of content crawling as functions of the events of their run. */
module ContentHistory {
  import opened Common
  import opened ContentCrawl
  import opened ContentCrawlRuns
  import Feed = FeedItems
  import FeedRuns = FeedItemRuns

  // ----- What an event does to an attempt and to an item

  predicate OpensAs(e: Event, a: AttemptId, i: nat) {
    e.BeginBatch? && i < |e.picked| && |e.ids| == |e.picked| && e.ids[i] == a
  }

  ghost predicate Opens(e: Event, a: AttemptId) { exists i: nat :: OpensAs(e, a, i) }

  /** The batch that opened an attempt. */
  ghost function Opening(es: seq<Event>, a: AttemptId): Option<Event> {
    if es == [] then None
    else if Opens(es[|es| - 1], a) then Some(es[|es| - 1])
    else Opening(es[..|es| - 1], a)
  }

  /** Whether an event ends an attempt that is running at this job on this item. */
  predicate Ends(items: Feed.Table, e: Event, a: AttemptId, job: JobId, item: ItemId) {
    match e
    case BeginBatch(j, _, _, _, _) => j == job
    case Succeed(b, k, _, _, _) => b == a && k == item && item in items && !items[item].isPrivate
    case Miss(b, k, _, _, _, _) => b == a && k == item
    case Cancel(j, holdsToken, _) => j == job && holdsToken
    case Other(_) => false
  }

  ghost predicate EndsOn(t: State, e: Event, item: ItemId) {
    exists a :: IsRunning(t.attempts, a, item) && Ends(t.items, e, a, t.attempts[a].job, item)
  }

  predicate ClaimsItem(e: Event, item: ItemId) { e.BeginBatch? && item in Elements(e.picked) }

  /** The event that ended an attempt: the first one after its opening that could. */
  ghost function Ending(s: State, es: seq<Event>, a: AttemptId): Option<Event> {
    if es == [] then None
    else
      var front, e := es[..|es| - 1], es[|es| - 1];
      var t := Exec(s, front);
      if Ending(s, front, a).Some? then Ending(s, front, a)
      else if a in t.attempts && Ends(t.items, e, a, t.attempts[a].job, t.attempts[a].item) then Some(e)
      else None
  }

  // ----- What the history says of an item

  function Claims(es: seq<Event>, item: ItemId): nat {
    if es == [] then 0 else Claims(es[..|es| - 1], item) + if ClaimsItem(es[|es| - 1], item) then 1 else 0
  }

  function LastClaim(es: seq<Event>, item: ItemId): Option<Time> {
    if es == [] then None
    else if ClaimsItem(es[|es| - 1], item) then Some(es[|es| - 1].sel.now)
    else LastClaim(es[..|es| - 1], item)
  }

  /** The event that last claimed the item or ended an attempt at it. */
  ghost function LastWord(s: State, es: seq<Event>, item: ItemId): Option<Event> {
    if es == [] then None
    else
      var front, e := es[..|es| - 1], es[|es| - 1];
      if ClaimsItem(e, item) || EndsOn(Exec(s, front), e, item) then Some(e) else LastWord(s, front, item)
  }

  ghost function LastFetch(s: State, es: seq<Event>, item: ItemId): Option<Event> {
    if es == [] then None
    else
      var front, e := es[..|es| - 1], es[|es| - 1];
      if e.Succeed? && EndsOn(Exec(s, front), e, item) then Some(e) else LastFetch(s, front, item)
  }

  /** The failures and cancellations since the last fetch; an attempt that a batch supersedes is none. */
  ghost function Misses(s: State, es: seq<Event>, item: ItemId): nat {
    if es == [] then 0
    else
      var front, e := es[..|es| - 1], es[|es| - 1];
      if !EndsOn(Exec(s, front), e, item) then Misses(s, front, item)
      else if e.Succeed? then 0
      else if e.Miss? || e.Cancel? then Misses(s, front, item) + 1
      else Misses(s, front, item)
  }

  // ----- What the columns are

  ghost predicate AttemptColumns(at: Attempt, a: AttemptId, opening: Event, ending: Option<Event>) {
    && (exists i: nat :: OpensAs(opening, a, i) && at.item == opening.picked[i])
    && opening.BeginBatch? && at.job == opening.job && at.startedAt == opening.sel.now
    && match ending
       case None => at.status.Running? && at.finishedAt.None? && at.retryable.None? && at.reason.None?
       case Some(BeginBatch(_, sel, _, _, _)) =>
         at.status.Cancelled? && at.finishedAt == Some(sel.now) && at.retryable == Some(true) &&
         at.reason == Some("superseded_attempt")
       case Some(Succeed(_, _, obs, _, _)) =>
         at.status.Succeeded? && at.finishedAt == Some(obs.fetchedAt) && at.retryable == Some(false) && at.reason.None?
       case Some(Miss(_, _, reason, retryable, _, now)) =>
         at.status.Failed? && at.finishedAt == Some(now) && at.retryable == Some(retryable) && at.reason == Some(reason)
       case Some(Cancel(_, _, now)) =>
         at.status.Cancelled? && at.finishedAt == Some(now) && at.retryable == Some(true) &&
         at.reason == Some("job_cancelled")
       case Some(Other(_)) => false
  }

  ghost predicate DueColumns(st: CrawlState, last: Option<Event>, item: ItemId) {
    match last
    case Some(BeginBatch(_, sel, _, picked, _)) =>
      if item in Elements(picked) then st.status.InProgress? && st.nextAttemptAt.None? && st.lastReason.None?
      else st.status.Failing? && st.nextAttemptAt == Some(sel.now) && st.lastReason == Some("superseded_attempt")
    case Some(Succeed(_, _, _, _, refreshAt)) =>
      st.status.Fetched? && st.nextAttemptAt == Some(refreshAt) && st.lastReason.None?
    case Some(Miss(_, _, reason, _, nextAt, _)) =>
      && (if nextAt.Some? then st.status.Failing? else st.status.PermanentFailure?)
      && st.nextAttemptAt == nextAt && st.lastReason == Some(reason)
    case Some(Cancel(_, _, now)) =>
      st.status.Failing? && st.nextAttemptAt == Some(now) && st.lastReason == Some("job_cancelled")
    case _ => false
  }

  ghost predicate FetchColumns(st: CrawlState, fetch: Option<Event>) {
    match fetch
    case None => st.lastSuccessAt.None? && st.contentChars.None?
    case Some(e) => e.Succeed? && st.lastSuccessAt == Some(e.obs.fetchedAt) && st.contentChars == Some(|e.obs.bodyText|)
  }

  ghost predicate StateColumns(s: State, es: seq<Event>, item: ItemId, st: CrawlState) {
    && st.attemptCount == Claims(es, item) > 0
    && st.lastAttemptAt == LastClaim(es, item)
    && st.consecutiveFailures == Misses(s, es, item)
    && FetchColumns(st, LastFetch(s, es, item))
    && DueColumns(st, LastWord(s, es, item), item)
  }

  // ----- One more event, for an attempt

  lemma {:induction false} ClaimedAt(attempts: Attempts, picked: seq<ItemId>, ids: seq<AttemptId>, job: JobId,
                                     now: Time, i: nat)
    requires |picked| == |ids| && Distinct(ids) && i < |ids|
    ensures ids[i] in AttemptsClaimed(attempts, picked, ids, job, now)
    ensures AttemptsClaimed(attempts, picked, ids, job, now)[ids[i]] == NewAttempt(picked[i], job, now)
  {
    var n := |picked| - 1;
    if i < n {
      ClaimedAt(attempts, picked[..n], ids[..n], job, now, i);
      assert ids[n] != ids[i];
    }
  }

  lemma {:induction false} NotClaimed(attempts: Attempts, picked: seq<ItemId>, ids: seq<AttemptId>, job: JobId,
                                      now: Time, a: AttemptId)
    requires |picked| == |ids| && a !in Elements(ids)
    ensures a in AttemptsClaimed(attempts, picked, ids, job, now) <==> a in attempts
    ensures a in attempts ==> AttemptsClaimed(attempts, picked, ids, job, now)[a] == attempts[a]
  {
    if picked != [] {
      var n := |picked| - 1;
      assert ids[n] in Elements(ids);
      assert forall i :: 0 <= i < n ==> ids[i] in Elements(ids);
      NotClaimed(attempts, picked[..n], ids[..n], job, now, a);
    }
  }

  /** What one event does to the row of an attempt that is there. */
  lemma AttemptStep(t: State, e: Event, a: AttemptId)
    requires Enabled(t, e) && a in t.attempts
    ensures a in Apply(t, e).attempts && !Opens(e, a)
    ensures var at, b := t.attempts[a], Apply(t, e).attempts[a];
            if at.status.Running? && Ends(t.items, e, a, at.job, at.item)
            then b.item == at.item && b.job == at.job && b.startedAt == at.startedAt && !b.status.Running?
            else b == at
  {
    if e.BeginBatch? {
      ClaimedKeepsOld(Closed(t.attempts, e.job, SUPERSEDED, e.sel.now), e.picked, e.ids, e.job, e.sel.now, a);
    }
  }

  lemma EndingStep(t: State, e: Event, a: AttemptId, opening: Event)
    requires Enabled(t, e) && a in t.attempts && t.attempts[a].status.Running?
    requires AttemptColumns(t.attempts[a], a, opening, None)
    requires Ends(t.items, e, a, t.attempts[a].job, t.attempts[a].item)
    ensures a in Apply(t, e).attempts && AttemptColumns(Apply(t, e).attempts[a], a, opening, Some(e))
  {
    if e.BeginBatch? {
      ClaimedKeepsOld(Closed(t.attempts, e.job, SUPERSEDED, e.sel.now), e.picked, e.ids, e.job, e.sel.now, a);
    }
  }

  lemma OpeningStep(t: State, e: Event, a: AttemptId)
    requires Enabled(t, e) && a !in t.attempts
    ensures a in Apply(t, e).attempts <==> Opens(e, a)
    ensures a in Apply(t, e).attempts ==> AttemptColumns(Apply(t, e).attempts[a], a, e, None)
  {
    if e.BeginBatch? {
      var closed := Closed(t.attempts, e.job, SUPERSEDED, e.sel.now);
      if a in Elements(e.ids) {
        var i :| 0 <= i < |e.ids| && e.ids[i] == a;
        assert OpensAs(e, a, i);
        ClaimedAt(closed, e.picked, e.ids, e.job, e.sel.now, i);
      } else {
        NotClaimed(closed, e.picked, e.ids, e.job, e.sel.now, a);
      }
    }
  }

  /**
   In every reachable state the attempts are those that a batch opened, and each is as its batch opened it until the
   first event that could end it, and as that event left it from then on.
   */
  lemma {:induction false} AttemptsFollowHistory(s: State, es: seq<Event>, a: AttemptId)
    requires Init(s) && Run(s, es)
    ensures a in Exec(s, es).attempts <==> Opening(es, a).Some?
    ensures a !in Exec(s, es).attempts ==> Ending(s, es, a).None?
    ensures a in Exec(s, es).attempts ==>
              AttemptColumns(Exec(s, es).attempts[a], a, Opening(es, a).value, Ending(s, es, a))
  {
    hide Enabled, Apply, AttemptColumns, Ends, Opens;
    if es != [] {
      var front, e := es[..|es| - 1], es[|es| - 1];
      var t := Exec(s, front);
      AttemptsFollowHistory(s, front, a);
      if a in t.attempts {
        AttemptStep(t, e, a);
        StatusTells(t.attempts[a], a, Opening(front, a).value, Ending(s, front, a));
        if Ending(s, front, a).None? && Ends(t.items, e, a, t.attempts[a].job, t.attempts[a].item) {
          EndingStep(t, e, a, Opening(front, a).value);
        }
      } else {
        OpeningStep(t, e, a);
      }
    }
  }

  lemma StatusTells(at: Attempt, a: AttemptId, opening: Event, ending: Option<Event>)
    requires AttemptColumns(at, a, opening, ending)
    ensures at.status.Running? <==> ending.None?
  {
  }

  // ----- One more event, for an item

  lemma {:induction false} ClaimedRow(states: States, picked: seq<ItemId>, now: Time, item: ItemId)
    requires Distinct(picked) && item in Elements(picked)
    ensures item in StatesClaimed(states, picked, now)
    ensures StatesClaimed(states, picked, now)[item] == ClaimedState(states, item, now)
  {
    var n := |picked| - 1;
    if picked[n] == item {
      StatesOutsideBatch(states, picked[..n], now, item);
    } else {
      var i :| 0 <= i < |picked| && picked[i] == item;
      assert picked[..n][i] == item;
      ClaimedRow(states, picked[..n], now, item);
    }
  }

  lemma ReleasedRow(t: State, job: JobId, reason: string, penalty: nat, now: Time, item: ItemId, e: Event)
    requires Inv(t) && ((e.BeginBatch? && e.job == job) || (e.Cancel? && e.job == job && e.holdsToken))
    ensures var after := Released(t.states, ItemsOf(t.attempts, RunningOf(t.attempts, job)), reason, penalty, now);
            && (item in after <==> item in t.states)
            && (EndsOn(t, e, item) ==>
                  && item in t.states && t.states[item].status.InProgress?
                  && var st := t.states[item];
                     after[item] == st.(status := Failing, nextAttemptAt := Some(now), lastReason := Some(reason),
                                        consecutiveFailures := st.consecutiveFailures + penalty))
            && (item in t.states && !EndsOn(t, e, item) ==> after[item] == t.states[item])
  {
    var hit := ItemsOf(t.attempts, RunningOf(t.attempts, job));
    assert Agrees(t.attempts, t.states, item);
    if EndsOn(t, e, item) {
      var a :| IsRunning(t.attempts, a, item) && Ends(t.items, e, a, t.attempts[a].job, item);
      assert a in RunningOf(t.attempts, job);
      assert item in hit;
    } else if item in hit {
      var a :| a in RunningOf(t.attempts, job) && t.attempts[a].item == item;
      assert IsRunning(t.attempts, a, item) && Ends(t.items, e, a, t.attempts[a].job, item);
    }
  }

  /** What one event does to the state row of an item. */
  lemma RowStep(t: State, e: Event, item: ItemId)
    requires Inv(t) && Enabled(t, e)
    ensures !ClaimsItem(e, item) && !EndsOn(t, e, item) ==>
              && (item in Apply(t, e).states <==> item in t.states)
              && (item in t.states ==> Apply(t, e).states[item] == t.states[item])
    ensures EndsOn(t, e, item) ==> item in t.states
    ensures ClaimsItem(e, item) || EndsOn(t, e, item) ==>
              && item in Apply(t, e).states
              && DueColumns(Apply(t, e).states[item], Some(e), item)
  {
    match e
    case BeginBatch(job, sel, limit, picked, ids) =>
      ReleasedRow(t, job, SUPERSEDED, 0, sel.now, item, e);
      BatchRow(t, e, item);
    case Cancel(job, holdsToken, now) =>
      if holdsToken { ReleasedRow(t, job, JOB_CANCELLED, 1, now, item, e); }
    case Succeed(a, k, _, _, _) =>
      ReportRow(t, e, item);
    case Miss(a, k, _, _, _, _) =>
      ReportRow(t, e, item);
    case Other(_) =>
  }

  lemma ReportRow(t: State, e: Event, item: ItemId)
    requires Inv(t) && (e.Succeed? || e.Miss?)
    ensures EndsOn(t, e, item) <==> Takes(t, e) && e.item == item
    ensures EndsOn(t, e, item) ==> item in t.states
  {
    if Takes(t, e) {
      RunningHasState(t, e.attempt, e.item);
      assert Ends(t.items, e, e.attempt, t.attempts[e.attempt].job, e.item);
    }
    if EndsOn(t, e, item) {
      var a :| IsRunning(t.attempts, a, item) && Ends(t.items, e, a, t.attempts[a].job, item);
      RunningHasState(t, a, item);
    }
  }

  lemma BatchRow(t: State, e: Event, item: ItemId)
    requires Enabled(t, e) && e.BeginBatch?
    ensures var before, after := StatesSuperseded(t, e.job, e.sel.now), Apply(t, e).states;
            if ClaimsItem(e, item) then item in after && after[item] == ClaimedState(before, item, e.sel.now)
            else (item in after <==> item in before) && (item in before ==> after[item] == before[item])
  {
    var before := StatesSuperseded(t, e.job, e.sel.now);
    PicksAreFew(e.picked, t.items, before, e.sel, e.limit);
    hide Released, PicksFirst;
    if ClaimsItem(e, item) {
      ClaimedRow(before, e.picked, e.sel.now, item);
    } else {
      assert forall i :: 0 <= i < |e.picked| ==> e.picked[i] in Elements(e.picked);
      StatesOutsideBatch(before, e.picked, e.sel.now, item);
    }
  }

  /** The counters and times of the row after one event. */
  lemma CountersStep(t: State, e: Event, item: ItemId)
    requires Inv(t) && Enabled(t, e) && (ClaimsItem(e, item) || EndsOn(t, e, item))
    ensures item in Apply(t, e).states
    ensures var st := Apply(t, e).states[item];
            && st.attemptCount == (if item in t.states then t.states[item].attemptCount else 0) +
                                  (if ClaimsItem(e, item) then 1 else 0)
            && st.lastAttemptAt == (if ClaimsItem(e, item) then Some(e.sel.now)
                                  else if item in t.states then t.states[item].lastAttemptAt else None)
            && st.consecutiveFailures ==
                 (if item !in t.states || (e.Succeed? && EndsOn(t, e, item)) then 0
                  else t.states[item].consecutiveFailures + if !e.BeginBatch? then 1 else 0)
            && (e.Succeed? ==> FetchColumns(st, Some(e)))
            && (!e.Succeed? && item in t.states ==>
                  st.lastSuccessAt == t.states[item].lastSuccessAt && st.contentChars == t.states[item].contentChars)
            && (item !in t.states ==> st.lastSuccessAt.None? && st.contentChars.None?)
  {
    RowStep(t, e, item);
    match e
    case BeginBatch(job, sel, limit, picked, ids) =>
      ReleasedRow(t, job, SUPERSEDED, 0, sel.now, item, e);
      BatchRow(t, e, item);
    case Cancel(job, holdsToken, now) =>
      if holdsToken { ReleasedRow(t, job, JOB_CANCELLED, 1, now, item, e); }
    case _ =>
      ReportRow(t, e, item);
  }

  /**
   In every reachable state the row of an item counts its claims and, since the last fetch, its failures and
   cancellations, holds time and size of that fetch, and is due as the event left it that last claimed the item or ended
   an attempt at it.
   */
  lemma {:induction false} StateRowsFollowHistory(s: State, es: seq<Event>, item: ItemId)
    requires Init(s) && Run(s, es)
    ensures item in Exec(s, es).states <==> LastWord(s, es, item).Some?
    ensures item in Exec(s, es).states ==> StateColumns(s, es, item, Exec(s, es).states[item])
    ensures item !in Exec(s, es).states ==>
              && Claims(es, item) == 0 && LastClaim(es, item).None?
              && LastFetch(s, es, item).None? && Misses(s, es, item) == 0
  {
    hide Enabled, Apply, Inv, ClaimsItem, EndsOn, DueColumns, Init;
    if es == [] {
      NoRowYet(s, item);
    } else {
      var front, e := es[..|es| - 1], es[|es| - 1];
      var t := Exec(s, front);
      StateRowsFollowHistory(s, front, item);
      ReachableInv(s, front);
      RowStep(t, e, item);
      if ClaimsItem(e, item) || EndsOn(t, e, item) {
        CountersStep(t, e, item);
        KindOfStep(t, e, item);
      }
    }
  }

  lemma KindOfStep(t: State, e: Event, item: ItemId)
    ensures ClaimsItem(e, item) ==> e.BeginBatch?
    ensures EndsOn(t, e, item) ==> e.BeginBatch? || e.Succeed? || e.Miss? || e.Cancel?
  {
  }

  lemma NoRowYet(s: State, item: ItemId)
    requires Init(s)
    ensures item !in s.states
  {
  }

  // ----- The items

  /**
   The changes of the feed table that a run makes: every completion of a running attempt at a public item hydrates it.
   */
  ghost function FeedEvents(s: State, es: seq<Event>): seq<Feed.Event> {
    if es == [] then []
    else
      var front, e := es[..|es| - 1], es[|es| - 1];
      FeedEvents(s, front) +
      match e
      case Succeed(_, item, obs, mark, _) =>
        if EndsOn(Exec(s, front), e, item) then [Feed.Hydrate(item, obs, mark)] else []
      case Other(feed) => [feed]
      case _ => []
  }

  /** The feed table of a content run is that of the run of those changes, so every law of the feed table holds here. */
  lemma {:induction false} ItemsFollowTheFeed(s: State, es: seq<Event>)
    requires Init(s) && Run(s, es)
    ensures FeedRuns.Run(s.items, FeedEvents(s, es))
    ensures Exec(s, es).items == FeedRuns.Exec(s.items, FeedEvents(s, es))
  {
    if es != [] {
      var front, e := es[..|es| - 1], es[|es| - 1];
      var t, done := Exec(s, front), FeedEvents(s, front);
      ItemsFollowTheFeed(s, front);
      ReachableInv(s, front);
      FeedStep(t, e);
      hide Apply, Enabled, Inv, EndsOn, Feed.Apply, Feed.Enabled;
      if e.Succeed? && EndsOn(t, e, e.item) {
        assert (done + [Feed.Hydrate(e.item, e.obs, e.mark)])[..|done|] == done;
      } else if e.Other? {
        assert (done + [e.feed])[..|done|] == done;
      } else {
        assert FeedEvents(s, es) == done;
      }
    }
  }

  lemma FeedStep(t: State, e: Event)
    requires Inv(t) && Enabled(t, e)
    ensures e.Succeed? && EndsOn(t, e, e.item) ==>
              && Feed.Enabled(t.items, Feed.Hydrate(e.item, e.obs, e.mark))
              && Apply(t, e).items == Feed.Apply(t.items, Feed.Hydrate(e.item, e.obs, e.mark))
    ensures e.Other? ==> Feed.Enabled(t.items, e.feed) && Apply(t, e).items == Feed.Apply(t.items, e.feed)
    ensures !e.Other? && !(e.Succeed? && EndsOn(t, e, e.item)) ==> Apply(t, e).items == t.items
  {
    if e.Succeed? { ReportRow(t, e, e.item); }
  }
}
