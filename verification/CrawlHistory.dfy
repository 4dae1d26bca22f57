/** Crawl runs, source health, raw rows and items as functions of the events of a run. */
module CrawlHistory {
  import opened Common
  import Feed = FeedItems
  import FeedRuns = FeedItemRuns
  import opened CrawlRuns
  import opened RawRows

  // ----- Runs

  /** The event that opened a run. */
  function Opening(es: seq<Event>, run: RunId): Option<Event> {
    if es == [] then None
    else if Opening(es[..|es| - 1], run).Some? then Opening(es[..|es| - 1], run)
    else if es[|es| - 1].Begin? && es[|es| - 1].run == run then Some(es[|es| - 1])
    else None
  }

  /** Whether an event ends a run of this job while it runs: its report, a newer run of the job, or a cancellation. */
  predicate CanEnd(e: Event, run: RunId, job: JobId) {
    match e
    case Begin(_, j, _, _) => j == job
    case Complete(k, _, _, _, _, _, _) => k == run
    case Fail(k, _, _, _) => k == run
    case Cancel(j, holdsToken, _, _) => j == job && holdsToken
    case Other(_) => false
  }

  /** The first event after its opening that could end a run. */
  function Ending(es: seq<Event>, run: RunId): Option<Event> {
    if es == [] then None
    else
      var front, e := es[..|es| - 1], es[|es| - 1];
      var opening := Opening(front, run);
      if Ending(front, run).Some? then Ending(front, run)
      else if opening.Some? && opening.value.Begin? && CanEnd(e, run, opening.value.job) then Some(e)
      else None
  }

  ghost predicate EndColumns(r: CrawlRun, ending: Option<Event>) {
    match ending
    case None => r.status.Running? && r.finishedAt.None? && r.itemCount == 0 && r.newItemCount == 0 && r.error.None?
    case Some(Begin(_, _, _, now)) =>
      && r.status.Cancelled? && r.finishedAt == Some(now) && r.itemCount == 0 && r.newItemCount == 0
      && r.error == Some("superseded by a newer crawl attempt for the same job")
    case Some(Cancel(_, _, reason, now)) =>
      && r.status.Cancelled? && r.finishedAt == Some(now) && r.itemCount == 0 && r.newItemCount == 0
      && r.error == Some(reason)
    case Some(Fail(_, _, error, now)) =>
      && r.status.Failed? && r.finishedAt == Some(now) && r.itemCount == 0 && r.newItemCount == 0
      && r.error == Some(error)
    case Some(Complete(_, _, _, list, _, trace, now)) =>
      && r.status.Completed? && r.finishedAt == Some(now) && r.itemCount == |list| && r.error.None?
      && r.newItemCount == InsertCount(trace)
    case Some(Other(_)) => false
  }

  ghost predicate RunColumns(r: CrawlRun, es: seq<Event>, run: RunId) {
    var opening := Opening(es, run);
    && opening.Some? && opening.value.Begin? && r.source == opening.value.src && r.job == opening.value.job
    && EndColumns(r, Ending(es, run))
  }

  lemma RunStep(t: State, e: Event, run: RunId)
    requires Enabled(t, e)
    ensures run in Apply(t, e).runs <==> run in t.runs || (e.Begin? && e.run == run)
    ensures run in t.runs ==>
              var r, next := t.runs[run], Apply(t, e).runs[run];
              && !(e.Begin? && e.run == run)
              && next.source == r.source && next.job == r.job
              && if r.status.Running? && CanEnd(e, run, r.job) then EndColumns(r, None) ==> EndColumns(next, Some(e))
                 else next == r
    ensures run !in t.runs && e.Begin? && e.run == run ==>
              && Apply(t, e).runs[run].source == e.src && Apply(t, e).runs[run].job == e.job
              && EndColumns(Apply(t, e).runs[run], None)
  {
    hide HealthAfter, ItemsAfter, RawTableAfter, Traces, FeedRuns.Run, InsertCount;
  }

  lemma RunTells(r: CrawlRun, ending: Option<Event>)
    requires EndColumns(r, ending)
    ensures r.status.Running? <==> ending.None?
  {
  }

  /**
   In every reachable state a crawl run is as it was begun, and as the first event left it that could end it: its own
   report, a newer run of its job, or a cancellation by the holder of the token.
   */
  lemma {:induction false} RunsFollowHistory(s: State, es: seq<Event>, run: RunId)
    requires Run(s, es) && s.runs == map[]
    ensures run in Exec(s, es).runs ==> RunColumns(Exec(s, es).runs[run], es, run)
    ensures run !in Exec(s, es).runs ==> Opening(es, run).None? && Ending(es, run).None?
  {
    hide Enabled, Apply, EndColumns, CanEnd;
    if es != [] {
      var front, e := es[..|es| - 1], es[|es| - 1];
      RunsFollowHistory(s, front, run);
      RunStep(Exec(s, front), e, run);
      if run in Exec(s, front).runs {
        RunTells(Exec(s, front).runs[run], Ending(front, run));
      }
    }
  }

  // ----- The health of a source

  /** A report on the source by a run that is still running. */
  predicate Lands(t: State, e: Event, src: SourceId) {
    (e.Complete? || e.Fail?) && e.src == src && e.run in t.runs && t.runs[e.run].status.Running?
  }

  function LastAttempt(s: State, es: seq<Event>, src: SourceId): Option<Time> {
    if es == [] then None
    else
      var front, e := es[..|es| - 1], es[|es| - 1];
      if (e.Begin? && e.src == src) || Lands(Exec(s, front), e, src) then Some(e.now) else LastAttempt(s, front, src)
  }

  function LastReport(s: State, es: seq<Event>, src: SourceId): Option<Event> {
    if es == [] then None
    else
      var front, e := es[..|es| - 1], es[|es| - 1];
      if Lands(Exec(s, front), e, src) then Some(e) else LastReport(s, front, src)
  }

  function LastSuccess(s: State, es: seq<Event>, src: SourceId): Option<Event> {
    if es == [] then None
    else
      var front, e := es[..|es| - 1], es[|es| - 1];
      if e.Complete? && Lands(Exec(s, front), e, src) then Some(e) else LastSuccess(s, front, src)
  }

  /** The last completion that had any entries. */
  function LastNonzero(s: State, es: seq<Event>, src: SourceId): Option<Event> {
    if es == [] then None
    else
      var front, e := es[..|es| - 1], es[|es| - 1];
      if e.Complete? && e.list != [] && Lands(Exec(s, front), e, src) then Some(e) else LastNonzero(s, front, src)
  }

  function TimeOf(e: Option<Event>): Option<Time> {
    if e.Some? && e.value.Complete? then Some(e.value.now) else None
  }

  ghost predicate HealthColumns(h: Health, s: State, es: seq<Event>, src: SourceId) {
    && h.lastAttemptAt == LastAttempt(s, es, src)
    && h.lastSuccessAt == TimeOf(LastSuccess(s, es, src))
    && h.lastNonzeroAt == TimeOf(LastNonzero(s, es, src))
    && h.cursor == (match LastSuccess(s, es, src)
                    case Some(Complete(_, _, _, _, cursor, _, _)) => Some(cursor)
                    case _ => None)
    && h.lastError == (match LastReport(s, es, src)
                       case Some(Fail(_, _, error, _)) => Some(error)
                       case _ => None)
  }

  lemma HealthStep(s: State, front: seq<Event>, e: Event, src: SourceId)
    requires HealthColumns(HealthOf(Exec(s, front).health, src), s, front, src)
    ensures HealthColumns(HealthOf(HealthAfter(Exec(s, front), e), src), s, front + [e], src)
  {
    hide Exec, BackoffSeconds;
    assert (front + [e])[..|front|] == front;
  }

  /**
   The times, the error and the cursor of a source are those of its last attempt, success, success with entries, and
   report, where a report counts only if its run was still running.
   */
  lemma {:induction false} HealthFollowsHistory(s: State, es: seq<Event>, src: SourceId)
    requires Run(s, es) && s.health == map[]
    ensures HealthColumns(HealthOf(Exec(s, es).health, src), s, es, src)
  {
    hide Enabled, RunsAfter, ItemsAfter, RawTableAfter, HealthAfter, HealthColumns;
    if es == [] {
      NoHealthYet(s, src);
    } else {
      var front, e := es[..|es| - 1], es[|es| - 1];
      assert front + [e] == es;
      HealthFollowsHistory(s, front, src);
      HealthStep(s, front, e, src);
    }
  }

  lemma NoHealthYet(s: State, src: SourceId)
    requires s.health == map[]
    ensures HealthColumns(HealthOf(s.health, src), s, [], src)
  {
  }

  /** The kind of a source is the one that its last successful crawl found. */
  lemma {:induction false} KindFollowsSuccess(s: State, es: seq<Event>, src: SourceId)
    requires Run(s, es)
    ensures var kinds := Exec(s, es).kinds;
            match LastSuccess(s, es, src)
            case Some(Complete(_, _, kind, _, _, _, _)) => src in kinds && kinds[src] == kind
            case _ => src in kinds <==> src in s.kinds
    ensures LastSuccess(s, es, src).None? && src in s.kinds ==> Exec(s, es).kinds[src] == s.kinds[src]
  {
    hide Enabled, RunsAfter, ItemsAfter, RawTableAfter, HealthAfter;
    if es != [] {
      KindFollowsSuccess(s, es[..|es| - 1], src);
    }
  }

  // ----- What a completion does to the items

  /** The entry that the n-th normalized one of a list is. */
  function NthNormalized(list: seq<Processed>, n: nat): Option<Processed> {
    if list == [] then None
    else if list[|list| - 1].Normalized? && NormalizedCount(list[..|list| - 1]) == n then Some(list[|list| - 1])
    else NthNormalized(list[..|list| - 1], n)
  }

  lemma {:induction false} NormalizedAreCounted(list: seq<Processed>)
    ensures NormalizedCount(list) == |set i | 0 <= i < |list| && list[i].Normalized?|
  {
    var all := set i | 0 <= i < |list| && list[i].Normalized?;
    if list == [] {
      assert all == {};
    } else {
      var front, n := list[..|list| - 1], |list| - 1;
      NormalizedAreCounted(front);
      var before := set i | 0 <= i < |front| && front[i].Normalized?;
      assert forall i :: 0 <= i < n ==> front[i] == list[i];
      assert all == before + if list[n].Normalized? then {n} else {};
    }
  }

  /** A completion upserts the normalized entries, each once and in order, under the key of its raw row. */
  lemma {:induction false} TraceIsTheEntries(trace: seq<Feed.Event>, run: RunId, src: SourceId, list: seq<Processed>,
                                             now: Time, n: nat)
    requires Traces(trace, run, src, list, now)
    ensures |trace| == |set i | 0 <= i < |list| && list[i].Normalized?|
    ensures NthNormalized(list, n).Some? <==> n < |trace|
    ensures n < |trace| ==>
              var p, e := NthNormalized(list, n).value, trace[n];
              && p.Normalized? && (e.Insert? || e.Merge?)
              && e.src == src && e.obs == p.obs && e.raw == (run, p.key) && (e.Insert? ==> e.at == now)
  {
    NormalizedAreCounted(list);
    InsertsAreBounded(trace, run, src, list, now);
    if list != [] {
      var front, p := list[..|list| - 1], list[|list| - 1];
      if p.Rejected? {
        TraceIsTheEntries(trace, run, src, front, now, n);
        InsertsAreBounded(trace, run, src, front, now);
      } else {
        TraceIsTheEntries(trace[..|trace| - 1], run, src, front, now, n);
        InsertsAreBounded(trace[..|trace| - 1], run, src, front, now);
      }
    }
  }

  /**
   The changes of the feed table that a run makes: all upserts of a completion that lands, and what is not a crawl.
   */
  function FeedEvents(s: State, es: seq<Event>): seq<Feed.Event> {
    if es == [] then []
    else
      var front, e := es[..|es| - 1], es[|es| - 1];
      FeedEvents(s, front) +
      if e.Complete? && Lands(Exec(s, front), e, e.src) then e.trace else if e.Other? then [e.feed] else []
  }

  lemma {:induction false} FeedRunsJoin(items: Feed.Table, done: seq<Feed.Event>, more: seq<Feed.Event>)
    requires FeedRuns.Run(items, done) && FeedRuns.Run(FeedRuns.Exec(items, done), more)
    ensures FeedRuns.Run(items, done + more)
    ensures FeedRuns.Exec(items, done + more) == FeedRuns.Exec(FeedRuns.Exec(items, done), more)
  {
    hide Feed.Apply, Feed.Enabled;
    if more == [] {
      assert done + more == done;
    } else {
      FeedRunsJoin(items, done, more[..|more| - 1]);
      assert (done + more)[..|done + more| - 1] == done + more[..|more| - 1];
    }
  }

  lemma OneFeedRun(items: Feed.Table, feed: Feed.Event)
    requires Feed.Enabled(items, feed)
    ensures FeedRuns.Run(items, [feed]) && FeedRuns.Exec(items, [feed]) == Feed.Apply(items, feed)
  {
    hide Feed.Apply, Feed.Enabled;
    assert [feed][..0] == [];
    assert FeedRuns.Exec(items, [feed][..0]) == items && FeedRuns.Run(items, [feed][..0]);
  }

  lemma FeedStep(t: State, e: Event)
    requires Enabled(t, e)
    ensures e.Complete? && Lands(t, e, e.src) ==>
              FeedRuns.Run(t.items, e.trace) && Apply(t, e).items == FeedRuns.Exec(t.items, e.trace)
    ensures e.Other? ==> Feed.Enabled(t.items, e.feed) && Apply(t, e).items == Feed.Apply(t.items, e.feed)
    ensures !e.Other? && !(e.Complete? && Lands(t, e, e.src)) ==> Apply(t, e).items == t.items
  {
    hide RunsAfter, HealthAfter, RawTableAfter, Traces, FeedRuns.Run, FeedRuns.Exec, Feed.Enabled, Feed.Apply;
  }

  /** The feed table of a crawl run is that of the run of those changes, so every law of the feed table holds here. */
  lemma {:induction false} ItemsFollowTheFeed(s: State, es: seq<Event>)
    requires Run(s, es)
    ensures FeedRuns.Run(s.items, FeedEvents(s, es))
    ensures Exec(s, es).items == FeedRuns.Exec(s.items, FeedEvents(s, es))
  {
    hide Enabled, Apply, FeedRuns.Run, FeedRuns.Exec, Lands;
    if es == [] {
      NothingStored(s.raws, s.items, 0, 0, 0);
    } else {
      var front, e := es[..|es| - 1], es[|es| - 1];
      var t, done := Exec(s, front), FeedEvents(s, front);
      ItemsFollowTheFeed(s, front);
      FeedStep(t, e);
      if e.Complete? && Lands(t, e, e.src) {
        FeedRunsJoin(s.items, done, e.trace);
      } else if e.Other? {
        OneFeedRun(t.items, e.feed);
        FeedRunsJoin(s.items, done, [e.feed]);
      } else {
        assert FeedEvents(s, es) == done;
      }
    }
  }

  // ----- Which item a raw row names

  /** The item of the last upsert from a raw row. */
  function LastUpsert(trace: seq<Feed.Event>, id: RawId): Option<ItemId> {
    if trace == [] then None
    else
      var e := trace[|trace| - 1];
      if (e.Insert? || e.Merge?) && e.raw == id then Some(e.id) else LastUpsert(trace[..|trace| - 1], id)
  }

  /** Whether an event hides an item that names this raw row; retiring a source hides what it still shows. */
  ghost predicate HidesFrom(items: Feed.Table, feed: Feed.Event, id: RawId) {
    exists k :: k in items && items[k].rawId == Some(id) &&
      ((feed.Quarantine? && feed.id == k) || (feed.Retire? && feed.src == items[k].source && !items[k].isPrivate))
  }

  lemma SkipsExactlyWhen(items: Feed.Table, feed: Feed.Event, id: RawId)
    ensures Skips(items, feed, id) <==> HidesFrom(items, feed, id)
  {
  }

  ghost function NamedItem(s: State, es: seq<Event>, id: RawId): Option<ItemId> {
    if es == [] then None
    else
      var front, e := es[..|es| - 1], es[|es| - 1];
      var t := Exec(s, front);
      if e.Complete? && e.run == id.0 && Lands(t, e, e.src) then LastUpsert(e.trace, id)
      else if e.Other? && HidesFrom(t.items, e.feed, id) then None
      else NamedItem(s, front, id)
  }

  lemma {:induction false} CompletionNames(raws: map<RawId, RawRow>, run: RunId, src: SourceId, list: seq<Processed>,
                                           trace: seq<Feed.Event>, now: Time, id: RawId)
    requires Traces(trace, run, src, list, now) && id.0 == run && id !in raws
    ensures var after := RawsAfter(raws, run, list, trace);
            if id in after then after[id].item == LastUpsert(trace, id) else LastUpsert(trace, id).None?
  {
    if list != [] {
      var front, p := list[..|list| - 1], list[|list| - 1];
      CompletionNames(raws, run, src, front, if p.Rejected? then trace else trace[..|trace| - 1], now, id);
    }
  }

  lemma NamesStep(t: State, e: Event, named: Option<ItemId>, id: RawId)
    requires RawInv(t) && Enabled(t, e)
    requires if id in t.raws then t.raws[id].item == named else named.None?
    ensures var next := if e.Complete? && e.run == id.0 && Lands(t, e, e.src) then LastUpsert(e.trace, id)
                        else if e.Other? && HidesFrom(t.items, e.feed, id) then None
                        else named;
            if id in Apply(t, e).raws then Apply(t, e).raws[id].item == next else next.None?
  {
    hide RunsAfter, HealthAfter, RawsAfter, FeedRuns.Exec, FeedRuns.Run, Traces, SkipText, Feed.Enabled, Feed.Apply,
         LastUpsert, Skips, HidesFrom;
    if e.Complete? && Takes(t, e) {
      if e.run == id.0 {
        CompletionNames(t.raws, e.run, e.src, e.list, e.trace, e.now, id);
      } else {
        RowsOfRun(t.raws, e.run, e.list, e.trace);
      }
    } else if e.Other? {
      SkipsExactlyWhen(t.items, e.feed, id);
    }
  }

  /** In every reachable state a raw row names the item of the last upsert from it, and none once it was set aside. */
  lemma {:induction false} RawRowsNameTheirItems(s: State, es: seq<Event>, id: RawId)
    requires Run(s, es) && s.raws == map[] && forall k :: k in s.items ==> s.items[k].rawId.None?
    ensures var t := Exec(s, es);
            if id in t.raws then t.raws[id].item == NamedItem(s, es, id) else NamedItem(s, es, id).None?
  {
    hide Enabled, Apply, RawInv, Settled, Lands, HidesFrom;
    if es != [] {
      var front, e := es[..|es| - 1], es[|es| - 1];
      RawRowsNameTheirItems(s, front, id);
      RawRowsAreSettled(s, front, id);
      NamesStep(Exec(s, front), e, NamedItem(s, front, id), id);
    }
  }

  /** The text on a raw row that was set aside: reason and policy of a quarantine, only the reason of a retirement. */
  lemma SkipTexts(id: ItemId, src: SourceId, reason: string, policy: string, reversible: bool, details: Feed.Metadata)
    ensures var record := Feed.QuarantineRecord(reason, policy, reversible, details);
            && SkipText(Feed.Quarantine(id, record)) == "quality quarantine: " + reason + " (" + policy + ")"
            && SkipText(Feed.Retire(src, record)) == "quality quarantine: " + reason
  {
    assert "reason"[2] == 'a' && "reversible"[2] == 'v' && "policy"[0] == 'p';
  }
}
