/** What holds over every run of batches, completions, failures and cancellations of content crawls. */
module ContentCrawlRuns {
  import opened ContentCrawl

  function Exec(s: State, es: seq<Event>): State {
    if es == [] then s else Apply(Exec(s, es[..|es| - 1]), es[|es| - 1])
  }

  predicate Run(s: State, es: seq<Event>) {
    es != [] ==> Run(s, es[..|es| - 1]) && Enabled(Exec(s, es[..|es| - 1]), es[|es| - 1])
  }

  lemma {:induction false} RunPrefix(s: State, es: seq<Event>, i: nat)
    requires Run(s, es) && i <= |es|
    ensures Run(s, es[..i])
    ensures i < |es| ==> Enabled(Exec(s, es[..i]), es[i]) && Exec(s, es[..i + 1]) == Apply(Exec(s, es[..i]), es[i])
  {
    hide Enabled, Apply;
    if i == |es| {
      assert es[..i] == es;
    } else if i == |es| - 1 {
      assert es[..i + 1] == es;
    } else {
      var front := es[..|es| - 1];
      RunPrefix(s, front, i);
      assert front[..i] == es[..i] && front[..i + 1] == es[..i + 1] && front[i] == es[i];
    }
  }

  ghost predicate TablesAgree(attempts: Attempts, states: States) {
    OneRunning(attempts) && forall item :: Agrees(attempts, states, item)
  }

  // ----- Each kind of write keeps the tables in agreement

  lemma ClosingKeepsAgreement(attempts: Attempts, states: States, job: JobId, reason: string, penalty: nat, now: Time)
    requires TablesAgree(attempts, states)
    ensures TablesAgree(Closed(attempts, job, reason, now),
                        Released(states, ItemsOf(attempts, RunningOf(attempts, job)), reason, penalty, now))
  {
    var closed := Closed(attempts, job, reason, now);
    var hit := ItemsOf(attempts, RunningOf(attempts, job));
    forall item
      ensures Agrees(closed, Released(states, hit, reason, penalty, now), item)
    {
      ClosingKeepsItem(attempts, states, job, reason, penalty, now, item);
    }
    assert forall a, item :: IsRunning(closed, a, item) ==> IsRunning(attempts, a, item);
  }

  lemma ClosingKeepsItem(attempts: Attempts, states: States, job: JobId, reason: string, penalty: nat, now: Time,
                         item: ItemId)
    requires TablesAgree(attempts, states)
    ensures Agrees(Closed(attempts, job, reason, now),
                   Released(states, ItemsOf(attempts, RunningOf(attempts, job)), reason, penalty, now), item)
  {
    var closed := Closed(attempts, job, reason, now);
    var hit := ItemsOf(attempts, RunningOf(attempts, job));
    assert Agrees(attempts, states, item);
    assert AttemptsFor(closed, item) == AttemptsFor(attempts, item);
    if item in hit {
      var a :| a in RunningOf(attempts, job) && attempts[a].item == item;
      assert IsRunning(attempts, a, item);
      assert forall b :: IsRunning(closed, b, item) ==> IsRunning(attempts, b, item) && b != a;
    } else {
      assert forall b :: IsRunning(closed, b, item) <==> IsRunning(attempts, b, item);
    }
  }

  lemma ClaimKeepsAgreement(attempts: Attempts, states: States, item: ItemId, id: AttemptId, job: JobId, now: Time)
    requires TablesAgree(attempts, states) && id !in attempts
    requires item in states ==> !states[item].status.InProgress?
    ensures TablesAgree(attempts[id := NewAttempt(item, job, now)], states[item := ClaimedState(states, item, now)])
  {
    var attempts', states' := attempts[id := NewAttempt(item, job, now)],
        states[item := ClaimedState(states, item, now)];
    assert Agrees(attempts, states, item);
    assert OneRunning(attempts') by {
      assert forall a, k :: IsRunning(attempts', a, k) ==> IsRunning(attempts, a, k) || (a == id && k == item);
    }
    forall k
      ensures Agrees(attempts', states', k)
    {
      assert Agrees(attempts, states, k);
      ClaimAddsOne(attempts, item, id, job, now, k);
    }
  }

  lemma ClaimAddsOne(attempts: Attempts, item: ItemId, id: AttemptId, job: JobId, now: Time, k: ItemId)
    requires id !in attempts
    ensures var attempts' := attempts[id := NewAttempt(item, job, now)];
            && |AttemptsFor(attempts', k)| == |AttemptsFor(attempts, k)| + (if k == item then 1 else 0)
            && ((exists a :: IsRunning(attempts', a, k)) <==> k == item || exists a :: IsRunning(attempts, a, k))
  {
    var attempts' := attempts[id := NewAttempt(item, job, now)];
    if k == item {
      assert AttemptsFor(attempts', k) == AttemptsFor(attempts, k) + {id};
      assert IsRunning(attempts', id, k);
    } else {
      assert AttemptsFor(attempts', k) == AttemptsFor(attempts, k);
    }
    assert forall a :: IsRunning(attempts', a, k) <==> IsRunning(attempts, a, k) || (a == id && k == item);
  }

  lemma {:induction false} StatesOutsideBatch(states: States, picked: seq<ItemId>, now: Time, item: ItemId)
    requires forall i :: 0 <= i < |picked| ==> picked[i] != item
    ensures item in StatesClaimed(states, picked, now) <==> item in states
    ensures item in states ==> StatesClaimed(states, picked, now)[item] == states[item]
  {
    if picked != [] {
      StatesOutsideBatch(states, picked[..|picked| - 1], now, item);
    }
  }

  lemma {:induction false} AttemptKeys(attempts: Attempts, picked: seq<ItemId>, ids: seq<AttemptId>, job: JobId,
                                       now: Time, id: AttemptId)
    requires |picked| == |ids| && id !in attempts && forall i :: 0 <= i < |ids| ==> ids[i] != id
    ensures id !in AttemptsClaimed(attempts, picked, ids, job, now)
  {
    if picked != [] {
      var n := |picked| - 1;
      AttemptKeys(attempts, picked[..n], ids[..n], job, now, id);
    }
  }

  lemma {:induction false} BatchKeepsAgreement(attempts: Attempts, states: States, picked: seq<ItemId>,
                                               ids: seq<AttemptId>, job: JobId, now: Time)
    requires TablesAgree(attempts, states) && |picked| == |ids| && Distinct(picked) && Distinct(ids)
    requires forall i :: 0 <= i < |ids| ==> ids[i] !in attempts
    requires forall i :: 0 <= i < |picked| && picked[i] in states ==> !states[picked[i]].status.InProgress?
    ensures TablesAgree(AttemptsClaimed(attempts, picked, ids, job, now), StatesClaimed(states, picked, now))
  {
    if picked != [] {
      var n := |picked| - 1;
      BatchKeepsAgreement(attempts, states, picked[..n], ids[..n], job, now);
      StatesOutsideBatch(states, picked[..n], now, picked[n]);
      AttemptKeys(attempts, picked[..n], ids[..n], job, now, ids[n]);
      ClaimKeepsAgreement(AttemptsClaimed(attempts, picked[..n], ids[..n], job, now),
                          StatesClaimed(states, picked[..n], now),
                          picked[n], ids[n], job, now);
    }
  }

  lemma FinishKeepsAgreement(attempts: Attempts, states: States, id: AttemptId, item: ItemId, done: Attempt,
                             st: CrawlState)
    requires TablesAgree(attempts, states) && IsRunning(attempts, id, item) && item in states
    requires done.item == item && !done.status.Running?
    requires !st.status.InProgress? && st.attemptCount == states[item].attemptCount
    ensures TablesAgree(attempts[id := done], states[item := st])
  {
    var attempts', states' := attempts[id := done], states[item := st];
    forall k
      ensures Agrees(attempts', states', k)
    {
      assert Agrees(attempts, states, k);
      assert AttemptsFor(attempts', k) == AttemptsFor(attempts, k);
      if k == item {
        assert forall a :: IsRunning(attempts', a, k) ==> IsRunning(attempts, a, k) && a != id;
      } else {
        assert forall a :: IsRunning(attempts', a, k) <==> IsRunning(attempts, a, k);
      }
    }
    assert forall a, k :: IsRunning(attempts', a, k) ==> IsRunning(attempts, a, k);
  }

  lemma RunningHasState(s: State, attempt: AttemptId, item: ItemId)
    requires Inv(s) && IsRunning(s.attempts, attempt, item)
    ensures item in s.states && s.states[item].status.InProgress?
  {
    assert Agrees(s.attempts, s.states, item);
  }

  lemma BatchStep(s: State, e: Event)
    requires Inv(s) && Enabled(s, e) && e.BeginBatch?
    ensures Inv(Apply(s, e))
  {
    var BeginBatch(job, sel, limit, picked, ids) := e;
    var closed, released := Closed(s.attempts, job, SUPERSEDED, sel.now), StatesSuperseded(s, job, sel.now);
    ClosingKeepsAgreement(s.attempts, s.states, job, SUPERSEDED, 0, sel.now);
    PicksAreFew(picked, s.items, released, sel, limit);
    assert forall i :: 0 <= i < |picked| ==> picked[i] in Candidates(s.items, released, sel);
    hide TablesAgree, Released, PicksFirst;
    assert TablesAgree(closed, released);
    BatchKeepsAgreement(closed, released, picked, ids, job, sel.now);
    AgreementIsInv(Apply(s, e));
  }

  lemma AgreementIsInv(s: State)
    ensures TablesAgree(s.attempts, s.states) <==> Inv(s)
  {
  }

  lemma InvPreserved(s: State, e: Event)
    requires Inv(s) && Enabled(s, e)
    ensures Inv(Apply(s, e))
  {
    AgreementIsInv(s);
    AgreementIsInv(Apply(s, e));
    match e
    case BeginBatch(_, _, _, _, _) =>
      BatchStep(s, e);
    case Cancel(job, _, now) =>
      ClosingKeepsAgreement(s.attempts, s.states, job, JOB_CANCELLED, 1, now);
    case Succeed(attempt, item, _, _, _) =>
      if Takes(s, e) {
        RunningHasState(s, attempt, item);
        FinishKeepsAgreement(s.attempts, s.states, attempt, item, AttemptsAfter(s, e)[attempt],
                             StatesAfter(s, e)[item]);
      }
    case Miss(attempt, item, _, _, _, _) =>
      if Takes(s, e) {
        RunningHasState(s, attempt, item);
        FinishKeepsAgreement(s.attempts, s.states, attempt, item, AttemptsAfter(s, e)[attempt],
                             StatesAfter(s, e)[item]);
      }
    case Other(_) =>
  }

  predicate Init(s: State) { s.attempts == map[] && s.states == map[] }

  lemma {:induction false} ReachableInv(s: State, es: seq<Event>)
    requires Init(s) && Run(s, es)
    ensures Inv(Exec(s, es))
  {
    hide Enabled, Apply;
    if es == [] {
      forall item
        ensures Agrees(s.attempts, s.states, item)
      {
        assert AttemptsFor(s.attempts, item) == {};
      }
    } else {
      ReachableInv(s, es[..|es| - 1]);
      InvPreserved(Exec(s, es[..|es| - 1]), es[|es| - 1]);
    }
  }

  /**
   In every reachable state an item has at most one running attempt, has one exactly when its state
   row says so, and its state row counts its attempts.
   */
  lemma TwoTablesAgree(s: State, es: seq<Event>, item: ItemId)
    requires Init(s) && Run(s, es)
    ensures var t := Exec(s, es);
            && (forall a, b :: IsRunning(t.attempts, a, item) && IsRunning(t.attempts, b, item) ==> a == b)
            && ((item in t.states && t.states[item].status.InProgress?) <==> exists a :: IsRunning(t.attempts, a, item))
            && (item in t.states ==> t.states[item].attemptCount == |AttemptsFor(t.attempts, item)|)
            && (item !in t.states ==> AttemptsFor(t.attempts, item) == {})
  {
    ReachableInv(s, es);
    assert Agrees(Exec(s, es).attempts, Exec(s, es).states, item);
  }

  // ----- Attempts are closed once

  lemma {:induction false} ClaimedKeepsOld(attempts: Attempts, picked: seq<ItemId>, ids: seq<AttemptId>, job: JobId,
                                           now: Time, a: AttemptId)
    requires |picked| == |ids| && a in attempts && forall i :: 0 <= i < |ids| ==> ids[i] !in attempts
    ensures a in AttemptsClaimed(attempts, picked, ids, job, now) &&
        AttemptsClaimed(attempts, picked, ids, job, now)[a] == attempts[a]
  {
    if picked != [] {
      var n := |picked| - 1;
      ClaimedKeepsOld(attempts, picked[..n], ids[..n], job, now, a);
    }
  }

  lemma ClosedStep(s: State, e: Event, a: AttemptId)
    requires Enabled(s, e) && a in s.attempts && !s.attempts[a].status.Running?
    ensures a in Apply(s, e).attempts && Apply(s, e).attempts[a] == s.attempts[a]
  {
    if e.BeginBatch? {
      ClaimedKeepsOld(Closed(s.attempts, e.job, SUPERSEDED, e.sel.now), e.picked, e.ids, e.job, e.sel.now, a);
    }
  }

  /** An attempt that was closed, by completion, supersession or cancellation, never changes again. */
  lemma {:induction false} ClosedStaysClosed(s: State, es: seq<Event>, i: nat, k: nat, a: AttemptId)
    requires Run(s, es) && i <= k <= |es|
    requires a in Exec(s, es[..i]).attempts && !Exec(s, es[..i]).attempts[a].status.Running?
    ensures a in Exec(s, es[..k]).attempts && Exec(s, es[..k]).attempts[a] == Exec(s, es[..i]).attempts[a]
    decreases k - i
  {
    hide Enabled, Apply;
    if i < k {
      RunPrefix(s, es, i);
      ClosedStep(Exec(s, es[..i]), es[i], a);
      ClosedStaysClosed(s, es, i + 1, k, a);
    }
  }

  predicate ReportsOn(e: Event, a: AttemptId) { (e.Succeed? || e.Miss?) && e.attempt == a }

  lemma RejectedChangesNothing(s: State, e: Event, a: AttemptId)
    requires ReportsOn(e, a) && (a in s.attempts ==> !s.attempts[a].status.Running?)
    ensures Apply(s, e) == s
  {
  }

  /**
   A batch supersedes the running attempts of its job: their late completions change nothing, neither item nor state.
   */
  lemma LateCompletionIsExcluded(s: State, es: seq<Event>, k: nat, m: nat, a: AttemptId)
    requires Run(s, es) && k < m < |es| && ReportsOn(es[m], a)
    requires es[k].BeginBatch? && a in Exec(s, es[..k]).attempts && Exec(s, es[..k]).attempts[a].job == es[k].job
    ensures Exec(s, es[..m + 1]) == Exec(s, es[..m])
  {
    hide Enabled, Apply;
    RunPrefix(s, es, k);
    SupersededIsClosed(Exec(s, es[..k]), es[k], a);
    ClosedStaysClosed(s, es, k + 1, m, a);
    RunPrefix(s, es, m);
    RejectedChangesNothing(Exec(s, es[..m]), es[m], a);
  }

  lemma SupersededIsClosed(s: State, e: Event, a: AttemptId)
    requires Enabled(s, e) && e.BeginBatch? && a in s.attempts && s.attempts[a].job == e.job
    ensures a in Apply(s, e).attempts && !Apply(s, e).attempts[a].status.Running?
  {
    ClaimedKeepsOld(Closed(s.attempts, e.job, SUPERSEDED, e.sel.now), e.picked, e.ids, e.job, e.sel.now, a);
  }

  // ----- Permanent failure

  predicate GivenUp(s: State, item: ItemId) { item in s.states && s.states[item].status.PermanentFailure? }

  lemma GivenUpStep(s: State, e: Event, item: ItemId)
    requires Inv(s) && Enabled(s, e) && GivenUp(s, item)
    ensures item in Apply(s, e).states && Apply(s, e).states[item] == s.states[item]
  {
    assert Agrees(s.attempts, s.states, item);
    if e.BeginBatch? {
      var released := StatesSuperseded(s, e.job, e.sel.now);
      assert forall i :: 0 <= i < |e.picked| ==> e.picked[i] in Candidates(s.items, released, e.sel);
      StatesOutsideBatch(released, e.picked, e.sel.now, item);
    }
  }

  /**
   An item that failed permanently is never attempted again: its state row never changes, so neither does its attempt
   count.
   */
  lemma {:induction false} PermanentFailureIsFinal(s: State, es: seq<Event>, item: ItemId)
    requires Inv(s) && Run(s, es) && GivenUp(s, item)
    ensures Inv(Exec(s, es))
    ensures item in Exec(s, es).states && Exec(s, es).states[item] == s.states[item]
  {
    hide Enabled, Apply, Inv;
    if es != [] {
      var front := es[..|es| - 1];
      PermanentFailureIsFinal(s, front, item);
      InvPreserved(Exec(s, front), es[|es| - 1]);
      GivenUpStep(Exec(s, front), es[|es| - 1], item);
    }
  }

  // ----- What a batch takes

  /**
   What a batch may take, told by the state before it: a public, unlocked item of an open source, not of the future,
   that was never attempted, waits for a retry that is due, was last fetched by `refreshBefore`, or is left running at
   this job.
   */
  ghost predicate Ready(s: State, job: JobId, sel: Selection, item: ItemId) {
    && item in s.items && !s.items[item].isPrivate && s.items[item].source in sel.openSources && item !in sel.locked
    && (s.items[item].publishedAt.Some? ==> s.items[item].publishedAt.value <= sel.now)
    && (item in s.states ==>
          var st := s.states[item];
          match st.status
          case Idle => st.nextAttemptAt.Some? ==> st.nextAttemptAt.value <= sel.now
          case Failing => st.nextAttemptAt.Some? ==> st.nextAttemptAt.value <= sel.now
          case InProgress => exists a :: IsRunning(s.attempts, a, item) && s.attempts[a].job == job
          case Fetched => st.lastSuccessAt.Some? && st.lastSuccessAt.value <= sel.refreshBefore
          case PermanentFailure => false)
  }

  /** Items never attempted come first, then those that failed or were left running, then the refreshed ones. */
  function Turn(s: State, item: ItemId): nat {
    if item !in s.states then 0
    else if s.states[item].status.Failing? || s.states[item].status.InProgress? then 1
    else 2
  }

  /** In each group the newest comes first. */
  predicate GoesBefore(s: State, a: ItemId, b: ItemId)
    requires a in s.items && b in s.items
  {
    var ta := if s.items[a].publishedAt.Some? then s.items[a].publishedAt.value else s.items[a].createdAt;
    var tb := if s.items[b].publishedAt.Some? then s.items[b].publishedAt.value else s.items[b].createdAt;
    if Turn(s, a) != Turn(s, b) then Turn(s, a) < Turn(s, b) else if ta != tb then ta > tb else a < b
  }

  lemma ReadyIsCandidate(s: State, job: JobId, sel: Selection, item: ItemId)
    requires Inv(s)
    ensures Ready(s, job, sel, item) <==> item in Candidates(s.items, StatesSuperseded(s, job, sel.now), sel)
  {
    var hit := ItemsOf(s.attempts, RunningOf(s.attempts, job));
    assert Agrees(s.attempts, s.states, item);
    if item in hit {
      var a :| a in RunningOf(s.attempts, job) && s.attempts[a].item == item;
      assert IsRunning(s.attempts, a, item);
    } else {
      assert forall a :: IsRunning(s.attempts, a, item) && s.attempts[a].job == job ==> a in RunningOf(s.attempts, job);
    }
  }

  lemma BeforeIsEarlier(s: State, job: JobId, sel: Selection, a: ItemId, b: ItemId)
    requires Ready(s, job, sel, a) && Ready(s, job, sel, b) && Inv(s)
    ensures GoesBefore(s, a, b) <==> Earlier(s.items, StatesSuperseded(s, job, sel.now), a, b)
  {
    ReadyIsCandidate(s, job, sel, a);
    ReadyIsCandidate(s, job, sel, b);
  }

  /** A batch takes nothing but ready items, each once, and leaves them running. */
  lemma BatchTakesOnlyDueItems(s: State, e: Event, i: nat)
    requires Inv(s) && Enabled(s, e) && e.BeginBatch? && i < |e.picked|
    ensures |e.picked| <= e.limit
    ensures Ready(s, e.job, e.sel, e.picked[i])
    ensures forall j :: 0 <= j < i ==> GoesBefore(s, e.picked[j], e.picked[i])
    ensures e.picked[i] in Apply(s, e).states && Apply(s, e).states[e.picked[i]].status.InProgress?
  {
    var item := e.picked[i];
    var released := StatesSuperseded(s, e.job, e.sel.now);
    ReadyIsCandidate(s, e.job, e.sel, item);
    forall j | 0 <= j < i
      ensures GoesBefore(s, e.picked[j], e.picked[i])
    {
      ReadyIsCandidate(s, e.job, e.sel, e.picked[j]);
      BeforeIsEarlier(s, e.job, e.sel, e.picked[j], item);
    }
    ClaimedInBatch(released, e.picked, e.sel.now, i);
  }

  /** A ready item is left out only by a full batch, and then all that is taken goes before it. */
  lemma BatchTakesEveryDueItem(s: State, e: Event, item: ItemId)
    requires Inv(s) && Enabled(s, e) && e.BeginBatch? && Ready(s, e.job, e.sel, item) && item !in Elements(e.picked)
    ensures |e.picked| == e.limit
    ensures forall i :: 0 <= i < |e.picked| ==> GoesBefore(s, e.picked[i], item)
  {
    ReadyIsCandidate(s, e.job, e.sel, item);
    forall i | 0 <= i < |e.picked|
      ensures GoesBefore(s, e.picked[i], item)
    {
      ReadyIsCandidate(s, e.job, e.sel, e.picked[i]);
      BeforeIsEarlier(s, e.job, e.sel, e.picked[i], item);
    }
  }

  lemma {:induction false} ClaimedInBatch(states: States, picked: seq<ItemId>, now: Time, i: nat)
    requires i < |picked|
    ensures picked[i] in StatesClaimed(states, picked, now) &&
        StatesClaimed(states, picked, now)[picked[i]].status.InProgress?
  {
    if i < |picked| - 1 {
      ClaimedInBatch(states, picked[..|picked| - 1], now, i);
    }
  }
}
