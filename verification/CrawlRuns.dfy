/**
 Crawl runs: a worker begins a run, and completes or fails it in one transaction that writes
 items, raw rows and source health and only then checks that the run is still its own.
 Quarantines and retirements set the raw rows of the items they hide aside.
 */
module CrawlRuns {
  import opened Common
  import Feed = FeedItems
  import FeedRuns = FeedItemRuns
  import Jobs
  import Recipes

  type RunId = nat
  type JobId = nat
  type SourceId = Feed.SourceId
  type ItemId = Feed.ItemId
  type RawId = Feed.RawId
  type Time = int

  const I32_MAX: nat := 0x7FFF_FFFF

  datatype RunStatus = Running | Completed | Failed | Cancelled

  datatype CrawlRun = CrawlRun(
    source: SourceId,
    job: JobId,
    status: RunStatus,
    finishedAt: Option<Time>,
    itemCount: nat,
    newItemCount: nat,
    error: Option<string>)

  datatype RawStatus = RawPending | RawNormalized | RawFailed | RawSkipped

  /** A row of raw_crawl_items, which is unique for its run and source item key. */
  datatype RawRow = RawRow(status: RawStatus, attempts: nat, error: Option<string>, item: Option<ItemId>)

  /** What a crawl produced for one entry of the source. */
  datatype Processed = Normalized(key: string, obs: Feed.Observation) | Rejected(key: string, error: string)

  datatype Cursor = Cursor(lastFetchedAt: Time, sitemapWatermark: Option<string>)

  datatype Health = Health(
    lastAttemptAt: Option<Time>,
    lastSuccessAt: Option<Time>,
    lastError: Option<string>,
    consecutiveFailures: nat,
    backoffUntil: Option<Time>,
    zeroRuns: nat,
    successfulRuns: nat,
    totalItems: nat,
    lastNonzeroAt: Option<Time>,
    cursor: Option<Cursor>)

  /** The column defaults of source_state. */
  const NO_HEALTH := Health(None, None, None, 0, None, 0, 0, 0, None, None)

  function HealthOf(health: map<SourceId, Health>, src: SourceId): Health {
    if src in health then health[src] else NO_HEALTH
  }

  const SUPERSEDED := "superseded by a newer crawl attempt for the same job"

  // ----- The writes

  /** Closes the running runs of a job. */
  function CancelRuns(runs: map<RunId, CrawlRun>, job: JobId, reason: string, now: Time): map<RunId, CrawlRun> {
    map k | k in runs ::
      if runs[k].job == job && runs[k].status.Running?
      then runs[k].(status := Cancelled, finishedAt := Some(now), error := Some(reason))
      else runs[k]
  }

  function Pow2(n: nat): nat { if n == 0 then 1 else 2 * Pow2(n - 1) }

  /** LEAST(3600, 120 * power(2, LEAST(failures, 5))). */
  function BackoffSeconds(failures: nat): nat { Min(3600, 120 * Pow2(Min(failures, 5))) }

  function AfterFailure(h: Health, error: string, now: Time): Health {
    h.(lastAttemptAt := Some(now), lastError := Some(error),
       backoffUntil := Some(now + BackoffSeconds(h.consecutiveFailures)),
       consecutiveFailures := h.consecutiveFailures + 1)
  }

  function AfterSuccess(h: Health, count: nat, cursor: Cursor, now: Time): Health {
    Health(Some(now), Some(now), None, 0, None, if count == 0 then h.zeroRuns + 1 else 0, h.successfulRuns + 1,
           h.totalItems + count, if count > 0 then Some(now) else h.lastNonzeroAt, Some(cursor))
  }

  function StoredRaw(raws: map<RawId, RawRow>, id: RawId, p: Processed): RawRow {
    var error := if p.Rejected? then Some(p.error) else None;
    var status := if p.Rejected? then RawFailed else RawPending;
    if id in raws then RawRow(status, raws[id].attempts + 1, error, raws[id].item) else RawRow(status, 1, error, None)
  }

  /** The raw row of one entry once the entry has been processed; `item` is where a normalized one ended up. */
  function SettledRaw(raws: map<RawId, RawRow>, run: RunId, p: Processed, item: ItemId): map<RawId, RawRow> {
    var id := (run, p.key);
    var stored := StoredRaw(raws, id, p);
    raws[id := if p.Rejected? then stored else RawRow(RawNormalized, stored.attempts, None, Some(item))]
  }

  function NormalizedCount(list: seq<Processed>): nat {
    if list == [] then 0 else NormalizedCount(list[..|list| - 1]) + if list[|list| - 1].Normalized? then 1 else 0
  }

  /**
   `trace` lists the upserts of the normalized entries, in order.  It says which row the database
   chose for each, and leads the feed table from one state to the next.
   */
  predicate Traces(trace: seq<Feed.Event>, run: RunId, src: SourceId, list: seq<Processed>, now: Time) {
    if list == [] then trace == []
    else
      var front, p := list[..|list| - 1], list[|list| - 1];
      if p.Rejected? then Traces(trace, run, src, front, now)
      else
        trace != [] && Traces(trace[..|trace| - 1], run, src, front, now) &&
            IsUpsert(trace[|trace| - 1], run, src, p, now)
  }

  predicate IsUpsert(e: Feed.Event, run: RunId, src: SourceId, p: Processed, now: Time)
    requires p.Normalized?
  {
    && (e.Insert? || e.Merge?) && e.src == src && e.obs == p.obs && e.raw == (run, p.key)
    && (e.Insert? ==> e.at == now)
  }

  function ItemOf(e: Feed.Event): ItemId { if e.Insert? || e.Merge? then e.id else 0 }

  function RawsAfter(raws: map<RawId, RawRow>, run: RunId, list: seq<Processed>,
                     trace: seq<Feed.Event>): map<RawId, RawRow> {
    if list == [] then raws
    else
      var front, p := list[..|list| - 1], list[|list| - 1];
      if p.Rejected? || trace == [] then SettledRaw(RawsAfter(raws, run, front, trace), run, p, 0)
      else SettledRaw(RawsAfter(raws, run, front, trace[..|trace| - 1]), run, p, ItemOf(trace[|trace| - 1]))
  }

  // ----- Raw rows that are set aside

  function TextField(record: Feed.Json, name: string): string {
    var field := Feed.Field(record, name);
    if field.Some? && field.value.JStr? then field.value.text else ""
  }

  /** A quarantine names its reason and policy, a retirement only its reason. */
  function SkipText(feed: Feed.Event): string {
    match feed
    case Quarantine(_, record) => "quality quarantine: " + TextField(record, "reason") + " ("
        + TextField(record, "policy") + ")"
    case Retire(_, record) => "quality quarantine: " + TextField(record, "reason")
    case _ => []
  }

  function SkippedRaw(row: RawRow, text: string): RawRow { RawRow(RawSkipped, row.attempts, Some(text), None) }

  /** Whether an event hides an item that came from this raw row. */
  predicate Skips(items: Feed.Table, feed: Feed.Event, id: RawId) {
    match feed
    case Quarantine(k, _) => k in items && items[k].rawId == Some(id)
    case Retire(src, _) =>
      exists k :: k in items && items[k].source == src && !items[k].isPrivate && items[k].rawId == Some(id)
    case _ => false
  }

  function RawsSkipped(raws: map<RawId, RawRow>, items: Feed.Table, feed: Feed.Event): map<RawId, RawRow> {
    map id | id in raws :: if Skips(items, feed, id) then SkippedRaw(raws[id], SkipText(feed)) else raws[id]
  }

  // ----- States and events

  datatype State = State(
    runs: map<RunId, CrawlRun>,
    raws: map<RawId, RawRow>,
    health: map<SourceId, Health>,
    kinds: map<SourceId, string>,
    items: Feed.Table)

  datatype Event =
    | Begin(src: SourceId, job: JobId, run: RunId, now: Time)
    | Complete(run: RunId, src: SourceId, kind: string, list: seq<Processed>, cursor: Cursor, trace: seq<Feed.Event>,
               now: Time)
    | Fail(run: RunId, src: SourceId, error: string, now: Time)
    | Cancel(job: JobId, holdsToken: bool, reason: string, now: Time)
    | Other(feed: Feed.Event)

  predicate IsRunning(runs: map<RunId, CrawlRun>, run: RunId) { run in runs && runs[run].status.Running? }

  predicate Enabled(s: State, e: Event) {
    match e
    case Begin(_, _, run, _) => run !in s.runs
    case Complete(run, src, _, list, _, trace, now) =>
      |list| <= I32_MAX && Traces(trace, run, src, list, now) && FeedRuns.Run(s.items, trace)
    case Fail(_, _, _, _) => true
    case Cancel(_, _, _, _) => true
    case Other(feed) => (feed.Hydrate? || feed.Quarantine? || feed.Retire?) && Feed.Enabled(s.items, feed)
  }

  /** The final guard of a completion or failure: anything it wrote before is rolled back unless this holds. */
  predicate Takes(s: State, e: Event) {
    (e.Complete? || e.Fail?) ==> IsRunning(s.runs, e.run)
  }

  function ItemsAfter(s: State, e: Event): Feed.Table {
    if e.Complete? && Takes(s, e) then FeedRuns.Exec(s.items, e.trace)
    else if e.Other? then Feed.Apply(s.items, e.feed)
    else s.items
  }

  function RunsAfter(s: State, e: Event): map<RunId, CrawlRun> {
    if e.Begin? then
      CancelRuns(s.runs, e.job, SUPERSEDED, e.now)[e.run := CrawlRun(e.src, e.job, Running, None, 0, 0, None)]
    else if e.Complete? && IsRunning(s.runs, e.run) then
      s.runs[e.run := s.runs[e.run].(status := Completed, finishedAt := Some(e.now), itemCount := |e.list|,
                                     newItemCount := InsertCount(e.trace))]
    else if e.Fail? && IsRunning(s.runs, e.run) then
      s.runs[e.run := s.runs[e.run].(status := Failed, finishedAt := Some(e.now), error := Some(e.error))]
    else if e.Cancel? && e.holdsToken then CancelRuns(s.runs, e.job, e.reason, e.now)
    else s.runs
  }

  function InsertCount(trace: seq<Feed.Event>): nat {
    if trace == [] then 0 else InsertCount(trace[..|trace| - 1]) + if trace[|trace| - 1].Insert? then 1 else 0
  }

  function HealthAfter(s: State, e: Event): map<SourceId, Health> {
    if e.Begin? then s.health[e.src := HealthOf(s.health, e.src).(lastAttemptAt := Some(e.now))]
    else if e.Complete? && Takes(s, e)
        then s.health[e.src := AfterSuccess(HealthOf(s.health, e.src), |e.list|, e.cursor, e.now)]
    else if e.Fail? && Takes(s, e) then s.health[e.src := AfterFailure(HealthOf(s.health, e.src), e.error, e.now)]
    else s.health
  }

  function RawTableAfter(s: State, e: Event): map<RawId, RawRow> {
    if e.Complete? && Takes(s, e) then RawsAfter(s.raws, e.run, e.list, e.trace)
    else if e.Other? then RawsSkipped(s.raws, s.items, e.feed)
    else s.raws
  }

  function Apply(s: State, e: Event): State {
    State(RunsAfter(s, e), RawTableAfter(s, e),
          HealthAfter(s, e),
          if e.Complete? && Takes(s, e) then s.kinds[e.src := e.kind] else s.kinds,
          ItemsAfter(s, e))
  }

  lemma NothingStored(raws: map<RawId, RawRow>, items: Feed.Table, run: RunId, src: SourceId, now: Time)
    ensures Traces([], run, src, [], now) && RawsAfter(raws, run, [], []) == raws && NormalizedCount([]) == 0 &&
        InsertCount([]) == 0
    ensures FeedRuns.Run(items, []) && FeedRuns.Exec(items, []) == items
  {
  }

  /** What one more entry adds to a trace. */
  lemma EntryExtends(raws: map<RawId, RawRow>, items: Feed.Table, run: RunId, src: SourceId, list: seq<Processed>,
                     i: nat,
                     trace: seq<Feed.Event>, e: Feed.Event, now: Time)
    requires i < |list| && Traces(trace, run, src, list[..i], now) && FeedRuns.Run(items, trace)
    ensures list[i].Rejected? ==>
              && Traces(trace, run, src, list[..i + 1], now)
              && NormalizedCount(list[..i + 1]) == NormalizedCount(list[..i])
              && RawsAfter(raws, run, list[..i + 1], trace)
                  == SettledRaw(RawsAfter(raws, run, list[..i], trace), run, list[i], 0)
    ensures (list[i].Normalized? && IsUpsert(e, run, src, list[i], now)
             && Feed.Enabled(FeedRuns.Exec(items, trace), e)) ==>
              && Traces(trace + [e], run, src, list[..i + 1], now)
              && NormalizedCount(list[..i + 1]) == NormalizedCount(list[..i]) + 1
              && RawsAfter(raws, run, list[..i + 1], trace + [e])
                  == SettledRaw(RawsAfter(raws, run, list[..i], trace), run, list[i], ItemOf(e))
              && FeedRuns.Run(items, trace + [e])
              && FeedRuns.Exec(items, trace + [e]) == Feed.Apply(FeedRuns.Exec(items, trace), e)
              && InsertCount(trace + [e]) == InsertCount(trace) + if e.Insert? then 1 else 0
  {
    hide Feed.Enabled, Feed.Apply, SettledRaw, IsUpsert;
    assert list[..i + 1][..i] == list[..i];
    assert (trace + [e])[..|trace|] == trace;
  }

  // ----- The code

  datatype RunError = TooManyItems | RunNotRunning(run: RunId) | Persist(error: Feed.FeedError)

  datatype Summary = Summary(itemCount: nat, newItems: nat, normalized: nat, failed: nat)

  class CrawlStore {
    var runs: map<RunId, CrawlRun>
    var raws: map<RawId, RawRow>
    var health: map<SourceId, Health>
    var kinds: map<SourceId, string>
    const feed: Feed.FeedStore
    const recipes: Recipes.RecipeStore

    ghost function Abs(): State reads this, feed { State(runs, raws, health, kinds, feed.items) }

    constructor (feed: Feed.FeedStore, recipes: Recipes.RecipeStore)
      ensures this.feed == feed && this.recipes == recipes
      ensures runs == map[] && raws == map[] && health == map[] && kinds == map[]
    {
      this.feed, this.recipes := feed, recipes;
      runs, raws, health, kinds := map[], map[], map[], map[];
    }

    /** Opens a run after closing the crawl runs and recipe runs that an earlier attempt of the job left running. */
    method BeginCrawlRun(src: SourceId, job: JobId, newRun: RunId, now: Time)
      requires newRun !in runs
      modifies this, recipes`runs
      ensures Enabled(old(Abs()), Begin(src, job, newRun, now))
      ensures Abs() == Apply(old(Abs()), Begin(src, job, newRun, now))
      ensures recipes.Abs() == Recipes.Apply(old(recipes.Abs()), Recipes.CancelRuns(job, now))
    {
      var _ := recipes.CancelRunsOf(job, now);
      runs := CancelRuns(runs, job, SUPERSEDED, now);
      runs := runs[newRun := CrawlRun(src, job, Running, None, 0, 0, None)];
      if src in health {
        health := health[src := health[src].(lastAttemptAt := Some(now))];
      } else {
        health := health[src := NO_HEALTH.(lastAttemptAt := Some(now))];
      }
    }

    /** Stores the raw row of one entry and, if the entry was normalized, its item. */
    method PersistEntry(run: RunId, src: SourceId, p: Processed, newId: ItemId, now: Time)
      returns (r: Result<bool, RunError>, ghost e: Feed.Event)
      requires newId !in feed.items && Feed.KeysUnique(feed.items)
      modifies this`raws, feed
      ensures r.Ok? && Feed.KeysUnique(feed.items)
      ensures p.Rejected? ==> !r.value && feed.items == old(feed.items) && raws == SettledRaw(old(raws), run, p, 0)
      ensures p.Normalized? ==>
                && IsUpsert(e, run, src, p, now) && (r.value <==> e.Insert?)
                && Feed.Enabled(old(feed.items), e) && feed.items == Feed.Apply(old(feed.items), e)
                && raws == SettledRaw(old(raws), run, p, ItemOf(e))
      ensures feed.items.Keys <= old(feed.items).Keys + {newId}
      ensures |feed.items| == |old(feed.items)| + if r.value then 1 else 0
    {
      hide Feed.Enabled, Feed.Apply, Feed.KeysUnique, Feed.Conflict;
      e := Feed.Retire(src, Feed.JNull);
      var id := (run, p.key);
      var status := if p.Rejected? then RawFailed else RawPending;
      var error := if p.Rejected? then Some(p.error) else None;
      var stored := if id in raws then RawRow(status, raws[id].attempts + 1, error, raws[id].item)
          else RawRow(status, 1, error, None);
      ghost var before := raws;
      assert stored == StoredRaw(before, id, p);
      raws := raws[id := stored];
      if p.Rejected? {
        return Ok(false), e;
      }
      var upserted := feed.Upsert(src, p.obs, id, newId, now);
      match upserted {
        case Err(problem) =>
          return Err(Persist(problem)), e;
        case Ok((itemId, inserted)) =>
          e := if inserted then Feed.Insert(src, p.obs, id, now, itemId) else Feed.Merge(src, p.obs, id, itemId);
          var settled := RawRow(RawNormalized, stored.attempts, None, Some(itemId));
          Overwrite(before, id, stored, settled);
          raws := raws[id := settled];
          return Ok(inserted), e;
      }
    }

    /** Stores entry i after the ones before it. */
    method PersistNext(run: RunId, src: SourceId, list: seq<Processed>, i: nat, newId: ItemId, now: Time,
                       ghost items0: Feed.Table, ghost raws0: map<RawId, RawRow>, ghost trace: seq<Feed.Event>)
      returns (r: Result<bool, RunError>, ghost next: seq<Feed.Event>)
      requires i < |list| && newId !in feed.items && Feed.KeysUnique(feed.items)
      requires Traces(trace, run, src, list[..i], now) && FeedRuns.Run(items0, trace)
      requires feed.items == FeedRuns.Exec(items0, trace) && raws == RawsAfter(raws0, run, list[..i], trace)
      modifies this`raws, feed
      ensures r.Ok? && Feed.KeysUnique(feed.items)
      ensures Traces(next, run, src, list[..i + 1], now) && FeedRuns.Run(items0, next)
      ensures feed.items == FeedRuns.Exec(items0, next) && raws == RawsAfter(raws0, run, list[..i + 1], next)
      ensures InsertCount(next) == InsertCount(trace) + if r.value then 1 else 0
      ensures feed.items.Keys <= old(feed.items).Keys + {newId}
      ensures |feed.items| == |old(feed.items)| + if r.value then 1 else 0
    {
      hide Feed.KeysUnique, Feed.Enabled, Feed.Apply, SettledRaw, IsUpsert, Traces, RawsAfter, InsertCount,
           NormalizedCount,
           FeedRuns.Run, FeedRuns.Exec;
      ghost var e;
      r, e := PersistEntry(run, src, list[i], newId, now);
      EntryExtends(raws0, items0, run, src, list, i, trace, e, now);
      next := if list[i].Rejected? then trace else trace + [e];
    }

    /** Stores the entries of a crawl one by one. */
    method PersistItems(run: RunId, src: SourceId, list: seq<Processed>, newIds: seq<ItemId>, now: Time)
      returns (r: Result<Summary, RunError>, ghost trace: seq<Feed.Event>)
      requires |newIds| == |list| && Feed.KeysUnique(feed.items)
      requires forall i :: 0 <= i < |newIds| ==> newIds[i] !in feed.items
      requires forall i, j :: 0 <= i < j < |newIds| ==> newIds[i] != newIds[j]
      modifies this`raws, feed
      ensures r.Ok? && Feed.KeysUnique(feed.items)
      ensures Traces(trace, run, src, list, now) && FeedRuns.Run(old(feed.items), trace)
      ensures feed.items == FeedRuns.Exec(old(feed.items), trace)
      ensures raws == RawsAfter(old(raws), run, list, trace)
      ensures r.value.itemCount == |list| && r.value.newItems == InsertCount(trace)
      ensures r.value.normalized == NormalizedCount(list) && r.value.normalized + r.value.failed == |list|
      ensures |feed.items| == |old(feed.items)| + r.value.newItems
    {
      hide Feed.KeysUnique, Traces, RawsAfter, InsertCount, FeedRuns.Run, FeedRuns.Exec;
      trace := [];
      var newItems, normalized, failed := 0, 0, 0;
      ghost var items0, raws0 := feed.items, raws;
      NothingStored(raws, feed.items, run, src, now);
      assert list[..0] == [];
      for i := 0 to |list|
        invariant Feed.KeysUnique(feed.items)
        invariant forall k :: i <= k < |newIds| ==> newIds[k] !in feed.items
        invariant Traces(trace, run, src, list[..i], now) && FeedRuns.Run(items0, trace)
        invariant feed.items == FeedRuns.Exec(items0, trace)
        invariant raws == RawsAfter(raws0, run, list[..i], trace)
        invariant newItems == InsertCount(trace)
        invariant normalized == NormalizedCount(list[..i]) && normalized + failed == i
        invariant |feed.items| == |items0| + newItems
      {
        assert list[..i + 1][..i] == list[..i];
        var stored;
        stored, trace := PersistNext(run, src, list, i, newIds[i], now, items0, raws0, trace);
        match stored {
          case Err(problem) =>
            return Err(problem), trace;
          case Ok(inserted) =>
            if list[i].Rejected? {
              failed := failed + 1;
            } else {
              normalized := normalized + 1;
            }
            if inserted {
              newItems := newItems + 1;
            }
        }
      }
      assert list[..|list|] == list;
      return Ok(Summary(|list|, newItems, normalized, failed)), trace;
    }

    method CompleteCrawlRun(run: RunId, src: SourceId, kind: string, list: seq<Processed>, cursor: Cursor,
                            newIds: seq<ItemId>, now: Time)
      returns (r: Result<Summary, RunError>, ghost trace: seq<Feed.Event>)
      requires |newIds| == |list| && Feed.KeysUnique(feed.items)
      requires forall i :: 0 <= i < |newIds| ==> newIds[i] !in feed.items
      requires forall i, j :: 0 <= i < j < |newIds| ==> newIds[i] != newIds[j]
      modifies this, feed
      ensures Feed.KeysUnique(feed.items)
      ensures r.Ok? <==> |list| <= 2_147_483_647 && IsRunning(old(runs), run)
      ensures r.Err? ==> Abs() == old(Abs())
      ensures |list| <= I32_MAX ==>
                var e := Complete(run, src, kind, list, cursor, trace, now);
                Enabled(old(Abs()), e) && Abs() == Apply(old(Abs()), e)
      ensures r.Ok? ==>
                && r.value.itemCount == |list| == r.value.normalized + r.value.failed
                && r.value.normalized == NormalizedCount(list)
                && r.value.newItems == |feed.items| - |old(feed.items)| == runs[run].newItemCount
    {
      hide Feed.KeysUnique, FeedRuns.Run, FeedRuns.Exec, Traces, RawsAfter, AfterSuccess;
      trace := [];
      if |list| > I32_MAX {
        return Err(TooManyItems), trace;
      }
      var savedRaws, savedKinds, savedItems := raws, kinds, feed.items;
      kinds := kinds[src := kind];
      ghost var steps;
      r, steps := PersistItems(run, src, list, newIds, now);
      trace := steps;
      if r.Err? || run !in runs || !runs[run].status.Running? {
        raws, kinds, feed.items := savedRaws, savedKinds, savedItems;
        r := if r.Err? then r else Err(RunNotRunning(run));
        return r, trace;
      }
      runs := runs[run := runs[run].(status := Completed, finishedAt := Some(now), itemCount := r.value.itemCount,
                                     newItemCount := r.value.newItems)];
      RecordSuccess(src, r.value.itemCount, cursor, now);
    }

    method RecordSuccess(src: SourceId, count: nat, cursor: Cursor, now: Time)
      modifies this`health
      ensures health == old(health)[src := AfterSuccess(HealthOf(old(health), src), count, cursor, now)]
    {
      if src in health {
        var h := health[src];
        health := health[src := Health(Some(now), Some(now), None, 0, None, if count == 0 then h.zeroRuns + 1 else 0,
                                       h.successfulRuns + 1, h.totalItems + count,
                                       if count > 0 then Some(now) else h.lastNonzeroAt, Some(cursor))];
      } else {
        health := health[src := Health(Some(now), Some(now), None, 0, None, if count == 0 then 1 else 0, 1, count,
                                       if count > 0 then Some(now) else None, Some(cursor))];
      }
    }

    method FailCrawlRun(run: RunId, src: SourceId, error: string, now: Time) returns (r: Result<(), RunError>)
      modifies this
      ensures r.Ok? <==> IsRunning(old(runs), run)
      ensures r.Err? ==> r.error == RunNotRunning(run) && Abs() == old(Abs())
      ensures Abs() == Apply(old(Abs()), Fail(run, src, error, now))
    {
      if run !in runs || !runs[run].status.Running? {
        return Err(RunNotRunning(run));
      }
      runs := runs[run := runs[run].(status := Failed, finishedAt := Some(now), error := Some(error))];
      var h := if src in health then health[src] else NO_HEALTH;
      if src in health {
        var seconds := BackoffSeconds(h.consecutiveFailures);
        health := health[src := h.(lastAttemptAt := Some(now), lastError := Some(error),
                                   backoffUntil := Some(now + seconds),
                                   consecutiveFailures := h.consecutiveFailures + 1)];
      } else {
        health := health[src := h.(lastAttemptAt := Some(now), lastError := Some(error),
                                   backoffUntil := Some(now + 120),
                                   consecutiveFailures := 1)];
      }
      return Ok(());
    }

    /**
     Closes the running crawl runs and recipe runs of a job for the holder of its token, and for nobody else.
     The guard does not look at the time of the lease.
     */
    method CancelRunningForJob(queue: Jobs.JobQueue, job: JobId, token: Jobs.Token, reason: string, now: Time)
        returns (count: nat)
      modifies this, recipes`runs
      ensures var holds := Jobs.HoldsToken(queue.jobs, job, token);
              && Abs() == Apply(old(Abs()), Cancel(job, holds, reason, now))
              && recipes.Abs() == (if holds then Recipes.Apply(old(recipes.Abs()), Recipes.CancelRuns(job, now))
                                   else old(recipes.Abs()))
              && count == if holds
                          then |set k | k in old(recipes.runs) && Recipes.RunOfJob(old(recipes.runs), k, job)|
                               + |set k | k in old(runs) && old(runs)[k].job == job && old(runs)[k].status.Running?|
                          else 0
    {
      if !(job in queue.jobs && queue.jobs[job].leaseToken == Some(token) && queue.jobs[job].status.Running?) {
        return 0;
      }
      hide Recipes.Apply, Recipes.RunOfJob;
      var recipeRuns := recipes.CancelRunsOf(job, now);
      var hit := set k | k in runs && runs[k].job == job && runs[k].status.Running?;
      runs := map k | k in runs ::
        if k in hit then runs[k].(status := Cancelled, finishedAt := Some(now), error := Some(reason)) else runs[k];
      count := recipeRuns + |hit|;
    }

    /** Hides one item that is still public and sets its raw row aside. */
    method QuarantineOne(id: ItemId, record: Feed.Json) returns (updated: bool)
      requires record.JObj?
      modifies this`raws, feed
      ensures updated <==> id in old(feed.items) && !old(feed.items)[id].isPrivate
      ensures !updated ==> Abs() == old(Abs())
      ensures var e := Other(Feed.Quarantine(id, record));
              updated ==> Enabled(old(Abs()), e) && Abs() == Apply(old(Abs()), e)
    {
      ghost var s := Abs();
      var source := if id in feed.items then feed.items[id].rawId else None;
      updated := feed.QuarantineItem(id, record);
      if !updated {
        return;
      }
      if source.Some? && source.value in raws {
        raws := raws[source.value := SkippedRaw(raws[source.value], SkipText(Feed.Quarantine(id, record)))];
      }
      assert raws == RawsSkipped(s.raws, s.items, Feed.Quarantine(id, record));
    }

    /** The least of some ids: rows come in the order of their ids. */
    method Least(ids: set<ItemId>) returns (least: ItemId)
      requires ids != {}
      ensures least in ids && forall k :: k in ids ==> least <= k
    {
      least :| least in ids;
      var todo := ids;
      while todo != {}
        invariant todo <= ids && least in ids && forall k :: k in ids && k !in todo ==> least <= k
        decreases |todo|
      {
        var k :| k in todo;
        todo := todo - {k};
        if k < least {
          least := k;
        }
      }
    }

    /** Hides the public ones among some items under the records given for them, in the order of their ids. */
    method QuarantineEach(records: map<ItemId, Feed.Json>) returns (count: nat, ghost trace: seq<Event>)
      requires forall k :: k in records ==> records[k].JObj?
      modifies this`raws, feed
      ensures Run(old(Abs()), trace) && Abs() == Exec(old(Abs()), trace)
      ensures InIdOrder(trace, Shown(old(feed.items), records), records)
      ensures count == |Shown(old(feed.items), records)|
      ensures feed.items == Feed.HideAll(old(feed.items), Shown(old(feed.items), records), records)
      ensures SetAside(old(raws), raws, old(feed.items), Shown(old(feed.items), records), records)
    {
      hide Hiding, Shown;
      ghost var s, shown := Abs(), Shown(feed.items, records);
      ghost var done: set<ItemId> := {};
      var todo := records.Keys;
      count, trace := 0, [];
      NothingHidden(s, records);
      ShownHaveRecords(s.items, records);
      while todo != {}
        invariant todo <= records.Keys && done <= shown <= records.Keys && count == |done|
        invariant forall k :: k in shown && k !in todo ==> k in done
        invariant forall k, j :: k in done && j in todo ==> k < j
        invariant Hiding(s, Abs(), trace, done, records)
        decreases |todo|
      {
        var k := Least(todo);
        todo := todo - {k};
        var updated;
        updated, trace := QuarantineNext(k, records, s, trace, done);
        if updated {
          count := count + 1;
          done := done + {k};
        }
      }
      assert done == shown;
      HidingMeans(s, Abs(), trace, done, records);
    }

    /** Hides one more item after those with smaller ids. */
    method QuarantineNext(k: ItemId, records: map<ItemId, Feed.Json>, ghost s: State, ghost trace: seq<Event>,
                          ghost done: set<ItemId>)
      returns (updated: bool, ghost next: seq<Event>)
      requires k in records && records[k].JObj? && done <= records.Keys && (forall j :: j in done ==> j < k)
      requires Hiding(s, Abs(), trace, done, records)
      modifies this`raws, feed
      ensures updated <==> k in Shown(s.items, records)
      ensures Hiding(s, Abs(), next, if updated then done + {k} else done, records)
    {
      hide Hiding, Shown, Enabled, Apply;
      ghost var before := Abs();
      HidingMeans(s, before, trace, done, records);
      StillShown(s.items, feed.items, done, records, k);
      updated := QuarantineOne(k, records[k]);
      next := trace;
      if updated {
        HideOneMore(s, before, trace, done, records, k);
        next := trace + [Other(Feed.Quarantine(k, records[k]))];
      }
    }

    /**
     Hides the public items of a source that deterministic recipe failures point at, and no others, each on
     account of the first URL that names it; and sets their raw rows aside.
     */
    method QuarantineArtifactFailures(src: SourceId, failures: seq<Feed.ArtifactFailure>, base: Feed.Metadata)
      returns (count: nat, ghost records: map<ItemId, Feed.Json>, ghost trace: seq<Event>)
      modifies this`raws, feed
      ensures var candidates := Feed.ArtifactCandidates(failures);
              && records.Keys == (set k | k in old(feed.items) && Feed.ArtifactHit(old(feed.items)[k], src, candidates))
              && forall k :: k in records ==> Feed.ArtifactCause(old(feed.items)[k], records[k], candidates, base)
      ensures count == |records|
      ensures Run(old(Abs()), trace) && Abs() == Exec(old(Abs()), trace) && InIdOrder(trace, records.Keys, records)
      ensures feed.items == Feed.HideAll(old(feed.items), records.Keys, records)
      ensures SetAside(old(raws), raws, old(feed.items), records.Keys, records)
    {
      hide Run, Exec, InIdOrder, SetAside, Feed.HideAll, Feed.ArtifactCause, Feed.NamesItem;
      var candidates := Feed.ArtifactCandidates(failures);
      if candidates == map[] {
        records, trace := map[], [];
        assert (set k | k in feed.items && Feed.ArtifactHit(feed.items[k], src, candidates)) == {};
        NothingHidden(Abs(), records);
        assert records.Keys == {};
        HidingMeans(Abs(), Abs(), [], {}, records);
        return 0, records, trace;
      }
      var found := feed.MatchArtifacts(src, candidates, base);
      records := found;
      assert Shown(feed.items, found) == found.Keys;
      count, trace := QuarantineEach(found);
    }

    /** Hides the listed items that are still public, under the first entry for each, and sets their raw rows aside. */
    method QuarantineForQuality(quarantines: seq<Feed.QualityQuarantine>, now: Time)
      returns (r: Result<nat, Feed.FeedError>, ghost trace: seq<Event>)
      modifies this`raws, feed
      ensures r.Err? <==> !Feed.AllNamed(quarantines)
      ensures r.Err? ==> r.error == Feed.BlankReasonOrPolicy && Abs() == old(Abs())
      ensures r.Ok? ==>
                var records := Feed.QualityRecords(old(feed.items), Feed.FirstEntries(quarantines), now);
                var shown := Shown(old(feed.items), records);
                && r.value == |shown|
                && Run(old(Abs()), trace) && Abs() == Exec(old(Abs()), trace) && InIdOrder(trace, shown, records)
                && feed.items == Feed.HideAll(old(feed.items), shown, records)
                && SetAside(old(raws), raws, old(feed.items), shown, records)
    {
      hide Run, Exec, InIdOrder, SetAside, Feed.HideAll, Feed.QualityRecords, Feed.AllNamed;
      trace := [];
      var listed := feed.ListedRecords(quarantines, now);
      match listed {
        case Err(error) =>
          return Err(error), trace;
        case Ok(records) =>
          var count;
          count, trace := QuarantineEach(records);
          return Ok(count), trace;
      }
    }

    /** Retiring a source for ownership sets aside the raw rows of what it still shows and hides that. */
    method RetireItems(src: SourceId, reason: string, base: Feed.Metadata)
      modifies this`raws, feed
      ensures var e := Other(Feed.Retire(src, Feed.QuarantineRecord(reason, Feed.OWNERSHIP_POLICY, false, base)));
              Enabled(old(Abs()), e) && Abs() == Apply(old(Abs()), e)
    {
      var record := Feed.QuarantineRecord(reason, Feed.OWNERSHIP_POLICY, false, base);
      raws := map id | id in raws ::
        if exists k :: k in feed.items && feed.items[k].source == src && !feed.items[k].isPrivate &&
            feed.items[k].rawId == Some(id)
        then SkippedRaw(raws[id], "quality quarantine: " + reason)
        else raws[id];
      RetirementText(src, reason, base);
      assert raws == RawsSkipped(old(raws), feed.items, Feed.Retire(src, record));
      hide RawsSkipped, Feed.QuarantineRecord, Feed.Quarantined;
      feed.RetireItems(src, record);
    }
  }

  lemma RetirementText(src: SourceId, reason: string, base: Feed.Metadata)
    ensures SkipText(Feed.Retire(src, Feed.QuarantineRecord(reason, Feed.OWNERSHIP_POLICY, false, base)))
        == "quality quarantine: " + reason
  {
    assert "reason"[2] == 'a' && "reversible"[2] == 'v' && "policy"[0] == 'p';
  }

  /** The items among those with a record that are still public. */
  function Shown(items: Feed.Table, records: map<ItemId, Feed.Json>): set<ItemId> {
    set k | k in records && k in items && !items[k].isPrivate
  }

  /** One quarantine for each of the items, in the order of their ids. */
  ghost predicate InIdOrder(trace: seq<Event>, ids: set<ItemId>, records: map<ItemId, Feed.Json>) {
    && |trace| == |ids|
    && (forall i :: 0 <= i < |trace| ==>
          && trace[i].Other? && trace[i].feed.Quarantine? && trace[i].feed.id in ids && trace[i].feed.id in records
          && trace[i].feed.record == records[trace[i].feed.id])
    && (forall i, j :: 0 <= i < j < |trace| ==> trace[i].feed.id < trace[j].feed.id)
  }

  /** Of the hidden items from one raw row the one with the greatest id writes last. */
  ghost predicate WritesLast(items: Feed.Table, hidden: set<ItemId>, k: ItemId, id: RawId) {
    && k in hidden && k in items && items[k].rawId == Some(id)
    && forall j :: j in hidden && j in items && items[j].rawId == Some(id) ==> j <= k
  }

  /** The raw rows after hiding items: exactly those the items came from are set aside. */
  ghost predicate SetAside(before: map<RawId, RawRow>, after: map<RawId, RawRow>, items: Feed.Table,
                           hidden: set<ItemId>, records: map<ItemId, Feed.Json>)
    requires hidden <= records.Keys
  {
    && after.Keys == before.Keys
    && (forall id :: id in before && (forall k :: k in hidden && k in items ==> items[k].rawId != Some(id)) ==>
        after[id] == before[id])
    && forall id, k :: id in before && WritesLast(items, hidden, k, id) ==>
         after[id] == SkippedRaw(before[id], SkipText(Feed.Quarantine(k, records[k])))
  }

  /** `trace` has led from s to t, hiding just the given items. */
  ghost predicate Hiding(s: State, t: State, trace: seq<Event>, done: set<ItemId>, records: map<ItemId, Feed.Json>)
    requires done <= records.Keys
  {
    && Run(s, trace) && t == Exec(s, trace) && InIdOrder(trace, done, records)
    && t.items == Feed.HideAll(s.items, done, records) && SetAside(s.raws, t.raws, s.items, done, records)
  }

  lemma HidingMeans(s: State, t: State, trace: seq<Event>, done: set<ItemId>, records: map<ItemId, Feed.Json>)
    requires done <= records.Keys && Hiding(s, t, trace, done, records)
    ensures Run(s, trace) && t == Exec(s, trace) && InIdOrder(trace, done, records)
    ensures t.items == Feed.HideAll(s.items, done, records) && SetAside(s.raws, t.raws, s.items, done, records)
  {
    hide Run, Exec, InIdOrder, SetAside, Feed.HideAll;
  }

  lemma NothingHidden(s: State, records: map<ItemId, Feed.Json>)
    ensures Hiding(s, s, [], {}, records)
  {
    hide Feed.Quarantined, Enabled, Apply, SkipText;
  }

  lemma ShownHaveRecords(items: Feed.Table, records: map<ItemId, Feed.Json>)
    ensures Shown(items, records) <= records.Keys
  {
  }

  /** Hiding some items leaves the others as public as they were. */
  lemma StillShown(items0: Feed.Table, items: Feed.Table, done: set<ItemId>, records: map<ItemId, Feed.Json>, k: ItemId)
    requires done <= records.Keys && items == Feed.HideAll(items0, done, records) && k in records && k !in done
    ensures k in Shown(items0, records) <==> k in items && !items[k].isPrivate
  {
  }

  lemma HideOneMore(s: State, t: State, trace: seq<Event>, done: set<ItemId>, records: map<ItemId, Feed.Json>,
                    k: ItemId)
    requires done <= records.Keys && Hiding(s, t, trace, done, records)
    requires k in records && k in t.items && forall j :: j in done ==> j < k
    requires Enabled(t, Other(Feed.Quarantine(k, records[k])))
    ensures var e := Other(Feed.Quarantine(k, records[k])); Hiding(s, Apply(t, e), trace + [e], done + {k}, records)
  {
    hide Feed.Enabled, SetAside, RawsSkipped, Feed.HideAll, Feed.Apply, Enabled, Run, Exec, InIdOrder;
    OneMoreEvent(s, t, trace, done, records, k);
    OneMoreItem(s.items, t.items, done, records, k);
    OneMoreRow(s.raws, t.raws, s.items, t.items, done, records, k);
  }

  lemma OneMoreEvent(s: State, t: State, trace: seq<Event>, done: set<ItemId>, records: map<ItemId, Feed.Json>,
                     k: ItemId)
    requires Run(s, trace) && t == Exec(s, trace) && InIdOrder(trace, done, records) && k in records &&
        forall j :: j in done ==> j < k
    requires Enabled(t, Other(Feed.Quarantine(k, records[k])))
    ensures var e := Other(Feed.Quarantine(k, records[k]));
            Run(s, trace + [e]) && Exec(s, trace + [e]) == Apply(t, e) && InIdOrder(trace + [e], done + {k}, records)
  {
    hide Enabled, Apply;
    var next := trace + [Other(Feed.Quarantine(k, records[k]))];
    assert next[..|next| - 1] == trace;
  }

  lemma OneMoreItem(items0: Feed.Table, items: Feed.Table, done: set<ItemId>, records: map<ItemId, Feed.Json>,
                    k: ItemId)
    requires done <= records.Keys && k in records && k !in done && k in items &&
        items == Feed.HideAll(items0, done, records)
    ensures Feed.Apply(items, Feed.Quarantine(k, records[k])) == Feed.HideAll(items0, done + {k}, records)
  {
    hide Feed.Quarantined;
  }

  lemma OneMoreRow(raws0: map<RawId, RawRow>, raws: map<RawId, RawRow>, items0: Feed.Table, items: Feed.Table,
                   done: set<ItemId>,
                   records: map<ItemId, Feed.Json>, k: ItemId)
    requires done <= records.Keys && k in records && SetAside(raws0, raws, items0, done, records)
    requires items == Feed.HideAll(items0, done, records) && k in items && forall j :: j in done ==> j < k
    ensures SetAside(raws0, RawsSkipped(raws, items, Feed.Quarantine(k, records[k])), items0, done + {k}, records)
  {
    var e := Feed.Quarantine(k, records[k]);
    var after := RawsSkipped(raws, items, e);
    assert items[k].rawId == items0[k].rawId;
    hide SkipText, Feed.HideAll;
    forall id, j | id in raws0 && WritesLast(items0, done + {k}, j, id)
      ensures after[id] == SkippedRaw(raws0[id], SkipText(Feed.Quarantine(j, records[j])))
    {
      if j == k {
        AttemptsStay(raws0, raws, items0, done, records, id);
      } else {
        assert WritesLast(items0, done, j, id);
      }
    }
  }

  lemma AttemptsStay(raws0: map<RawId, RawRow>, raws: map<RawId, RawRow>, items0: Feed.Table, done: set<ItemId>,
                     records: map<ItemId, Feed.Json>, id: RawId)
    requires done <= records.Keys && SetAside(raws0, raws, items0, done, records) && id in raws0
    ensures id in raws && raws[id].attempts == raws0[id].attempts
  {
    hide SkipText;
    var from := set j | j in done && j in items0 && items0[j].rawId == Some(id);
    if from != {} {
      var k := Greatest(from);
      forall j | j in done && j in items0 && items0[j].rawId == Some(id)
        ensures j <= k
      {
        assert j in from;
      }
      assert WritesLast(items0, done, k, id);
    } else {
      forall k | k in done && k in items0
        ensures items0[k].rawId != Some(id)
      {
        assert k !in from;
      }
    }
  }

  lemma {:induction false} Greatest(ids: set<ItemId>) returns (greatest: ItemId)
    requires ids != {}
    ensures greatest in ids && forall k :: k in ids ==> k <= greatest
    decreases ids
  {
    var k :| k in ids;
    greatest := k;
    if ids != {k} {
      var rest := Greatest(ids - {k});
      assert ids == ids - {k} + {k};
      greatest := if rest > k then rest else k;
    }
  }

  lemma Overwrite(raws: map<RawId, RawRow>, id: RawId, first: RawRow, second: RawRow)
    ensures raws[id := first][id := second] == raws[id := second]
  {
  }

  // ----- Runs of the whole machine

  function Exec(s: State, es: seq<Event>): State {
    if es == [] then s else Apply(Exec(s, es[..|es| - 1]), es[|es| - 1])
  }

  predicate Run(s: State, es: seq<Event>) {
    es != [] ==> Run(s, es[..|es| - 1]) && Enabled(Exec(s, es[..|es| - 1]), es[|es| - 1])
  }

  lemma {:induction false} RunPrefix(s: State, es: seq<Event>, i: nat)
    requires Run(s, es) && i <= |es|
    ensures Run(s, es[..i])
    ensures i < |es| ==> Enabled(Exec(s, es[..i]), es[i]) && Exec(s, es[..i + 1]) == Apply(Exec(s, es[..i]), es[i])
  {
    hide Enabled, Apply;
    if i == |es| {
      assert es[..i] == es;
    } else if i == |es| - 1 {
      assert es[..i + 1] == es;
    } else {
      var front := es[..|es| - 1];
      RunPrefix(s, front, i);
      assert front[..i] == es[..i] && front[..i + 1] == es[..i + 1] && front[i] == es[i];
    }
  }

  // ----- Stale writers

  /** A job has at most one running run. */
  ghost predicate OneRunPerJob(runs: map<RunId, CrawlRun>) {
    forall a, b :: IsRunning(runs, a) && IsRunning(runs, b) && runs[a].job == runs[b].job ==> a == b
  }

  predicate FinishedOk(run: CrawlRun) { run.status.Running? <==> run.finishedAt.None? }

  ghost predicate Inv(s: State) {
    && OneRunPerJob(s.runs)
    && (forall k :: k in s.runs ==> FinishedOk(s.runs[k]) && s.runs[k].newItemCount <= s.runs[k].itemCount)
    && Feed.KeysUnique(s.items)
  }

  lemma RunsStepOk(s: State, e: Event)
    requires Inv(s) && Enabled(s, e)
    ensures OneRunPerJob(RunsAfter(s, e))
    ensures forall k :: k in RunsAfter(s, e) ==>
        FinishedOk(RunsAfter(s, e)[k]) && RunsAfter(s, e)[k].newItemCount <= RunsAfter(s, e)[k].itemCount
  {
    hide Feed.KeysUnique, FeedRuns.Run, ItemsAfter;
    if e.Complete? { InsertsAreBounded(e.trace, e.run, e.src, e.list, e.now); }
  }

  lemma {:induction false} InsertsAreBounded(trace: seq<Feed.Event>, run: RunId, src: SourceId, list: seq<Processed>,
                                             now: Time)
    requires Traces(trace, run, src, list, now)
    ensures |trace| == NormalizedCount(list) <= |list| && InsertCount(trace) <= |trace|
  {
    if list != [] {
      if list[|list| - 1].Rejected? {
        InsertsAreBounded(trace, run, src, list[..|list| - 1], now);
      } else {
        InsertsAreBounded(trace[..|trace| - 1], run, src, list[..|list| - 1], now);
      }
    }
  }

  lemma {:induction false} ReachableInv(s: State, es: seq<Event>)
    requires Inv(s) && Run(s, es)
    ensures Inv(Exec(s, es))
  {
    if es != [] {
      hide Enabled, RunsAfter, ItemsAfter, HealthAfter;
      var front, e := es[..|es| - 1], es[|es| - 1];
      ReachableInv(s, front);
      RunsStepOk(Exec(s, front), e);
      ItemsStepOk(Exec(s, front), e);
    }
  }

  lemma ItemsStepOk(s: State, e: Event)
    requires Inv(s) && Enabled(s, e)
    ensures Feed.KeysUnique(ItemsAfter(s, e))
  {
    if e.Complete? {
      FeedRuns.ReachableKeysUnique(s.items, e.trace);
    } else if e.Other? {
      FeedRuns.KeysStayUnique(s.items, e.feed);
    }
  }

  lemma FinishedStep(s: State, e: Event, run: RunId)
    requires Enabled(s, e) && run in s.runs && !IsRunning(s.runs, run)
    ensures run in Apply(s, e).runs && Apply(s, e).runs[run] == s.runs[run]
  {
    hide HealthAfter, ItemsAfter, RawsAfter, InsertCount, Traces;
  }

  /** A finished run never runs again, and nothing about it changes. */
  lemma {:induction false} FinishedStaysFinished(s: State, es: seq<Event>, i: nat, k: nat, run: RunId)
    requires Run(s, es) && i <= k <= |es|
    requires run in Exec(s, es[..i]).runs && !IsRunning(Exec(s, es[..i]).runs, run)
    ensures run in Exec(s, es[..k]).runs && Exec(s, es[..k]).runs[run] == Exec(s, es[..i]).runs[run]
    decreases k - i
  {
    hide Apply, Enabled;
    if i < k {
      RunPrefix(s, es, i);
      FinishedStep(Exec(s, es[..i]), es[i], run);
      FinishedStaysFinished(s, es, i + 1, k, run);
    }
  }

  /** The events by which a worker reports on a run. */
  predicate ReportsOn(e: Event, run: RunId) { (e.Complete? || e.Fail?) && e.run == run }

  lemma RejectedChangesNothing(s: State, e: Event)
    requires !Takes(s, e)
    ensures Apply(s, e) == s
  {
  }

  /** Beginning a run finishes the older runs of its job; a report that takes effect finishes its run. */
  lemma RunsFinish(s: State, e: Event, run: RunId)
    requires Enabled(s, e) && run in s.runs
    requires (e.Begin? && s.runs[run].job == e.job) || (ReportsOn(e, run) && Takes(s, e))
    ensures run in Apply(s, e).runs && !IsRunning(Apply(s, e).runs, run)
  {
    hide HealthAfter, ItemsAfter, RawsAfter, InsertCount, Traces;
  }

  /**
   Once a newer run of a job has begun, nothing that a worker of an older run of that job does changes
   items, raw rows, counters, source health or the run itself.
   */
  lemma StaleWriterIsExcluded(s: State, es: seq<Event>, k: nat, m: nat, older: RunId)
    requires Inv(s) && Run(s, es) && k < m < |es|
    requires es[k].Begin? && older in Exec(s, es[..k]).runs && Exec(s, es[..k]).runs[older].job == es[k].job
    requires ReportsOn(es[m], older)
    ensures Exec(s, es[..m + 1]) == Exec(s, es[..m])
  {
    hide Apply, Enabled, Inv;
    RunPrefix(s, es, k);
    RunsFinish(Exec(s, es[..k]), es[k], older);
    FinishedStaysFinished(s, es, k + 1, m, older);
    RunPrefix(s, es, m);
    RejectedChangesNothing(Exec(s, es[..m]), es[m]);
  }

  /** A run that reported once cannot report again: at most one completion or failure of it takes effect. */
  lemma ReportsOnce(s: State, es: seq<Event>, k: nat, m: nat, run: RunId)
    requires Inv(s) && Run(s, es) && k < m < |es| && ReportsOn(es[k], run) && ReportsOn(es[m], run)
    requires Exec(s, es[..k + 1]) != Exec(s, es[..k])
    ensures Exec(s, es[..m + 1]) == Exec(s, es[..m])
  {
    hide Apply, Enabled, Inv;
    RunPrefix(s, es, k);
    if !Takes(Exec(s, es[..k]), es[k]) {
      RejectedChangesNothing(Exec(s, es[..k]), es[k]);
    } else {
      RunsFinish(Exec(s, es[..k]), es[k], run);
      FinishedStaysFinished(s, es, k + 1, m, run);
      RunPrefix(s, es, m);
      RejectedChangesNothing(Exec(s, es[..m]), es[m]);
    }
  }

  // ----- What a committed crawl leaves behind

  /**
   The counters that a completion stores are the truth: entries split into normalized and failed, new items are table
   growth.
   */
  lemma CommittedCountsAreExact(s: State, e: Event)
    requires Inv(s) && Enabled(s, e) && e.Complete? && Takes(s, e)
    ensures var t := Apply(s, e);
            && t.runs[e.run].status.Completed?
            && t.runs[e.run].itemCount == |e.list|
            && |t.items| == |s.items| + t.runs[e.run].newItemCount
            && s.items.Keys <= t.items.Keys
            && t.runs[e.run].newItemCount <= NormalizedCount(e.list) <= |e.list|
  {
    InsertsAreBounded(e.trace, e.run, e.src, e.list, e.now);
    UpsertsGrowTheTable(s.items, e.trace, e.run, e.src, e.list, e.now);
  }

  lemma {:induction false} UpsertsGrowTheTable(items: Feed.Table, trace: seq<Feed.Event>, run: RunId, src: SourceId,
                                               list: seq<Processed>, now: Time)
    requires Traces(trace, run, src, list, now) && FeedRuns.Run(items, trace)
    ensures |FeedRuns.Exec(items, trace)| == |items| + InsertCount(trace)
    ensures items.Keys <= FeedRuns.Exec(items, trace).Keys
  {
    if list != [] {
      var front := list[..|list| - 1];
      if list[|list| - 1].Rejected? {
        UpsertsGrowTheTable(items, trace, run, src, front, now);
      } else {
        UpsertsGrowTheTable(items, trace[..|trace| - 1], run, src, front, now);
      }
    }
  }

  // ----- Source health is a function of the reports that took effect

  /** The reports on a source that took effect, oldest first: the item count of a completion, none for a failure. */
  function Reports(s: State, es: seq<Event>, src: SourceId): seq<Option<nat>> {
    if es == [] then []
    else
      var front, e := es[..|es| - 1], es[|es| - 1];
      var before := Reports(s, front, src);
      if e.Complete? && e.src == src && Takes(Exec(s, front), e) then before + [Some(|e.list|)]
      else if e.Fail? && e.src == src && Takes(Exec(s, front), e) then before + [None]
      else before
  }

  function TrailingFailures(rs: seq<Option<nat>>): nat {
    if rs == [] || rs[|rs| - 1].Some? then 0 else 1 + TrailingFailures(rs[..|rs| - 1])
  }

  function Successes(rs: seq<Option<nat>>): seq<nat> {
    if rs == [] then [] else Successes(rs[..|rs| - 1]) + if rs[|rs| - 1].Some? then [rs[|rs| - 1].value] else []
  }

  function TrailingZeros(counts: seq<nat>): nat {
    if counts == [] || counts[|counts| - 1] != 0 then 0 else 1 + TrailingZeros(counts[..|counts| - 1])
  }

  function Sum(counts: seq<nat>): nat {
    if counts == [] then 0 else Sum(counts[..|counts| - 1]) + counts[|counts| - 1]
  }

  predicate HealthShows(h: Health, rs: seq<Option<nat>>) {
    && h.consecutiveFailures == TrailingFailures(rs)
    && h.successfulRuns == |Successes(rs)|
    && h.zeroRuns == TrailingZeros(Successes(rs))
    && h.totalItems == Sum(Successes(rs))
    && (h.backoffUntil.Some? <==> rs != [] && rs[|rs| - 1].None?)
  }

  lemma SuccessShows(h: Health, rs: seq<Option<nat>>, count: nat, cursor: Cursor, now: Time)
    requires HealthShows(h, rs)
    ensures HealthShows(AfterSuccess(h, count, cursor, now), rs + [Some(count)])
  {
    hide TrailingFailures, TrailingZeros, Successes, Sum;
    ReportsGrow(rs, Some(count));
  }

  lemma FailureShows(h: Health, rs: seq<Option<nat>>, error: string, now: Time)
    requires HealthShows(h, rs)
    ensures HealthShows(AfterFailure(h, error, now), rs + [None])
  {
    hide TrailingFailures, TrailingZeros, Successes, Sum, BackoffSeconds;
    ReportsGrow(rs, None);
  }

  /** Health counters are streaks and totals over the reports that took effect; stale reports never count. */
  lemma {:induction false} HealthMatchesReports(s: State, es: seq<Event>, src: SourceId)
    requires Run(s, es) && s.health == map[]
    ensures HealthShows(HealthOf(Exec(s, es).health, src), Reports(s, es, src))
  {
    hide Enabled, RunsAfter, ItemsAfter, RawTableAfter, AfterSuccess, AfterFailure;
    if es != [] {
      hide HealthShows, Takes;
      var front, e := es[..|es| - 1], es[|es| - 1];
      HealthMatchesReports(s, front, src);
      var t, before := Exec(s, front), Reports(s, front, src);
      assert Exec(s, es).health == HealthAfter(t, e);
      if e.Complete? && e.src == src && Takes(t, e) {
        SuccessShows(HealthOf(t.health, src), before, |e.list|, e.cursor, e.now);
      } else if e.Fail? && e.src == src && Takes(t, e) {
        FailureShows(HealthOf(t.health, src), before, e.error, e.now);
      } else {
        QuietHealth(t, e, src);
        AttemptShows(HealthOf(t.health, src), HealthOf(HealthAfter(t, e), src), before);
      }
    }
  }

  /** Any other event changes at most the time of the last attempt. */
  lemma QuietHealth(t: State, e: Event, src: SourceId)
    requires !((e.Complete? || e.Fail?) && e.src == src && Takes(t, e))
    ensures var h, next := HealthOf(t.health, src), HealthOf(HealthAfter(t, e), src);
            next == h || (e.Begin? && next == h.(lastAttemptAt := Some(e.now)))
  {
    hide Takes, AfterSuccess, AfterFailure;
  }

  lemma AttemptShows(h: Health, next: Health, rs: seq<Option<nat>>)
    requires HealthShows(h, rs) && next == h.(lastAttemptAt := next.lastAttemptAt)
    ensures HealthShows(next, rs)
  {
  }

  lemma ReportsGrow(before: seq<Option<nat>>, report: Option<nat>)
    ensures var rs := before + [report];
            && TrailingFailures(rs) == (if report.Some? then 0 else 1 + TrailingFailures(before))
            && Successes(rs) == Successes(before) + (if report.Some? then [report.value] else [])
            && |Successes(rs)| == |Successes(before)| + (if report.Some? then 1 else 0)
            && TrailingZeros(Successes(rs)) ==
               (if report.None? then TrailingZeros(Successes(before))
                else if report.value == 0 then 1 + TrailingZeros(Successes(before)) else 0)
            && Sum(Successes(rs)) == Sum(Successes(before)) + (if report.Some? then report.value else 0)
  {
    var rs := before + [report];
    assert rs[..|rs| - 1] == before;
    if report.Some? {
      var counts := Successes(rs);
      assert counts[..|counts| - 1] == Successes(before);
    } else {
      assert Successes(before) + [] == Successes(before);
    }
  }

  /**
   A failure that takes effect as the n-th in a row backs off for min(3600, 120 * 2^(n-1)) seconds; the inner cap
   never matters.
   */
  lemma BackoffDoubles(s: State, es: seq<Event>)
    requires Run(s, es) && s.health == map[] && es != []
    requires var e := es[|es| - 1]; e.Fail? && Takes(Exec(s, es[..|es| - 1]), e)
    ensures var e := es[|es| - 1]; var n := TrailingFailures(Reports(s, es, e.src));
            && n > 0
            && Exec(s, es).health[e.src].backoffUntil == Some(e.now + Min(3600, 120 * Pow2(n - 1)))
  {
    hide Enabled, RunsAfter, ItemsAfter, RawTableAfter, BackoffSeconds, Pow2, Takes, TrailingFailures, Successes, Sum,
         TrailingZeros;
    var front, e := es[..|es| - 1], es[|es| - 1];
    var t, before := Exec(s, front), Reports(s, front, e.src);
    HealthMatchesReports(s, front, e.src);
    ReportsGrow(before, None);
    InnerCapNeverMatters(TrailingFailures(before));
    hide Run, Exec, Reports, HealthShows;
    assert Exec(s, es).health[e.src]
        == AfterFailure(HealthOf(t.health, e.src), e.error, e.now) by { FailureIsStored(s, es); }
    assert Reports(s, es, e.src) == before + [None] by { FailureIsReported(s, es); }
  }

  lemma FailureIsStored(s: State, es: seq<Event>)
    requires es != [] && es[|es| - 1].Fail? && Takes(Exec(s, es[..|es| - 1]), es[|es| - 1])
    ensures var e := es[|es| - 1]; var t := Exec(s, es[..|es| - 1]);
            e.src in Exec(s, es).health &&
                Exec(s, es).health[e.src] == AfterFailure(HealthOf(t.health, e.src), e.error, e.now)
  {
    hide RunsAfter, ItemsAfter, RawTableAfter, Takes, AfterFailure;
  }

  lemma FailureIsReported(s: State, es: seq<Event>)
    requires es != [] && es[|es| - 1].Fail? && Takes(Exec(s, es[..|es| - 1]), es[|es| - 1])
    ensures Reports(s, es, es[|es| - 1].src) == Reports(s, es[..|es| - 1], es[|es| - 1].src) + [None]
  {
    hide Exec, Takes;
  }

  lemma InnerCapNeverMatters(k: nat)
    ensures BackoffSeconds(k) == Min(3600, 120 * Pow2(k))
  {
    if k >= 5 {
      Pow2Grows(5, k);
      assert Pow2(5) == 32;
    }
  }

  lemma {:induction false} Pow2Grows(a: nat, b: nat)
    requires a <= b
    ensures Pow2(a) <= Pow2(b)
    decreases b - a
  {
    if a < b { Pow2Grows(a, b - 1); }
  }
}
