/**
 The two transactions that end an active recipe and also reach the job queue and the feed: superseding it
 after a redundant rebuild, and retiring it because its source belongs to another company.
 */
module RecipeTransactions {
  import opened Common
  import Crawls = CrawlRuns
  import Feed = FeedItems
  import Jobs
  import Recipes
  import RecipeRuns

  const SUPERSEDED_TEXT := "recipe superseded before its activation crawl ran"
  const RETIRED_TEXT := "cancelled because approved feed evidence belongs to a different company"

  /** Some recipe of the source is active. */
  predicate StillActive(recipes: Recipes.RecipeTable, source: Recipes.SourceId) {
    exists k :: k in recipes && recipes[k].source == source && recipes[k].status.Active?
  }

  /** The queue after cancelling some of its jobs. */
  function Cancelled(queue: Jobs.State, ids: set<Jobs.JobId>, text: string): Jobs.State {
    Jobs.Apply(queue, Jobs.CancelPending(ids, text))
  }

  /** What retiring a source leaves: nothing that it shows, exports or still has to crawl. */
  predicate SourceIsSilent(items: Feed.Table, jobs: Jobs.Table, sources: Recipes.SourceTable,
                           source: Recipes.SourceId) {
    && (forall k :: k in items && items[k].source == source ==> items[k].isPrivate)
    && Jobs.PendingCrawls(jobs, source) == {}
    && (source in sources ==>
          sources[source].disabled && !sources[source].exported && sources[source].activeRecipe.None?)
  }

  class Database {
    const recipes: Recipes.RecipeStore
    const queue: Jobs.JobQueue
    const crawls: Crawls.CrawlStore

    constructor (recipes: Recipes.RecipeStore, queue: Jobs.JobQueue, crawls: Crawls.CrawlStore)
      ensures this.recipes == recipes && this.queue == queue && this.crawls == crawls
    {
      this.recipes, this.queue, this.crawls := recipes, queue, crawls;
    }

    /**
     Supersedes an active recipe and cancels the pending crawls of its source: those whose payload names the recipe
     (`named`), or all of them if no recipe of the source is active any more; as a source has at most one active
     recipe, it is always all of them.
     */
    method SupersedeActive(id: Recipes.RecipeId, reason: string, named: set<Jobs.JobId>, now: Jobs.Time)
      returns (r: Result<bool, Recipes.RecipeError>)
      modifies recipes, queue`jobs
      ensures r == if Recipes.Blank(reason) then Err(Recipes.BlankText)
          else Ok(Recipes.IsActive(old(recipes.recipes), id))
      ensures recipes.Abs() == Recipes.Apply(old(recipes.Abs()), Recipes.Supersede(id, reason))
      ensures r != Ok(true) ==> queue.jobs == old(queue.jobs)
      ensures r == Ok(true) ==>
                var source := old(recipes.recipes)[id].source;
                var among := if StillActive(recipes.recipes, source) then named else old(queue.jobs).Keys;
                queue.At(now) == Cancelled(old(queue.At(now)), Jobs.PendingCrawls(old(queue.jobs), source) * among,
                                           SUPERSEDED_TEXT)
      ensures r == Ok(true) && RecipeRuns.OneActive(old(recipes.recipes)) ==>
                var source := old(recipes.recipes)[id].source;
                !StillActive(recipes.recipes, source) && Jobs.PendingCrawls(queue.jobs, source) == {}
    {
      hide Recipes.Blank, StillActive, RecipeRuns.OneActive;
      var source := if id in recipes.recipes then recipes.recipes[id].source else 0;
      r := recipes.SupersedeActive(id, reason);
      if r.Err? || !r.value {
        return r;
      }
      var among := if StillActive(recipes.recipes, source) then named else queue.jobs.Keys;
      queue.CancelPendingCrawlsAmong(source, among, SUPERSEDED_TEXT, now);
      if RecipeRuns.OneActive(old(recipes.recipes)) {
        NoneStillActive(old(recipes.Abs()), id, reason);
        assert old(Jobs.PendingCrawls(queue.jobs, source)) * among == old(Jobs.PendingCrawls(queue.jobs, source));
      }
    }

    /**
     Retires an active recipe for ownership: the recipe goes stale, its source is disabled and no longer exported, its
     pending crawls are cancelled, and everything it still shows is hidden and its raw rows are set aside.
     */
    method RetireForOwnership(id: Recipes.RecipeId, reason: string, metadata: Feed.Json, now: Jobs.Time)
      returns (r: Result<bool, Recipes.RecipeError>)
      modifies recipes, queue`jobs, crawls`raws, crawls.feed
      ensures r == if Recipes.Blank(reason) then Err(Recipes.BlankText)
          else Ok(Recipes.IsActive(old(recipes.recipes), id))
      ensures recipes.Abs() == Recipes.Apply(old(recipes.Abs()), Recipes.Retire(id, reason, now))
      ensures r != Ok(true) ==> queue.jobs == old(queue.jobs) && crawls.Abs() == old(crawls.Abs())
      ensures r == Ok(true) ==>
                var source := old(recipes.recipes)[id].source;
                && queue.At(now) == Cancelled(old(queue.At(now)), Jobs.PendingCrawls(old(queue.jobs), source),
                                              RETIRED_TEXT)
                && var e := Crawls.Other(Feed.Retire(source, OwnershipRecord(id, reason, metadata, now)));
                   Crawls.Enabled(old(crawls.Abs()), e) && crawls.Abs() == Crawls.Apply(old(crawls.Abs()), e)
      ensures r == Ok(true) ==> SourceIsSilent(crawls.feed.items, queue.jobs, recipes.sources,
                                               old(recipes.recipes)[id].source)
    {
      hide Recipes.Blank, Recipes.Apply, Jobs.Apply, Jobs.PendingCrawls, Crawls.Apply, Crawls.Enabled;
      hide SourceIsSilent, Feed.QuarantineRecord, OwnershipDetails;
      var source := if id in recipes.recipes then recipes.recipes[id].source else 0;
      r := recipes.RetireForOwnership(id, reason, now);
      if r.Err? || !r.value {
        return r;
      }
      queue.CancelPendingCrawls(source, RETIRED_TEXT, now);
      crawls.RetireItems(source, reason, OwnershipDetails(id, metadata, now));
      RetiredIsSilent(old(recipes.Abs()), old(queue.At(now)), old(crawls.Abs()), id, reason, now,
                      OwnershipRecord(id, reason, metadata, now));
    }
  }

  function OwnershipDetails(id: Recipes.RecipeId, metadata: Feed.Json, now: Jobs.Time): Feed.Metadata {
    map["recipe_id" := Feed.JNumber(id), "quarantined_at" := Feed.JNumber(now), "metadata" := metadata]
  }

  function OwnershipRecord(id: Recipes.RecipeId, reason: string, metadata: Feed.Json, now: Jobs.Time): Feed.Json {
    Feed.QuarantineRecord(reason, Feed.OWNERSHIP_POLICY, false, OwnershipDetails(id, metadata, now))
  }

  lemma RetiredIsSilent(recipes: Recipes.State, queue: Jobs.State, crawls: Crawls.State, id: Recipes.RecipeId,
                        reason: string, now: Jobs.Time,
                        record: Feed.Json)
    requires Recipes.IsActive(recipes.recipes, id) && !Recipes.Blank(reason)
    ensures var source := recipes.recipes[id].source;
            SourceIsSilent(Crawls.Apply(crawls, Crawls.Other(Feed.Retire(source, record))).items,
                           Cancelled(queue, Jobs.PendingCrawls(queue.jobs, source), RETIRED_TEXT).jobs,
                           Recipes.Apply(recipes, Recipes.Retire(id, reason, now)).sources, source)
  {
    hide Crawls.RunsAfter, Crawls.HealthAfter, Crawls.RawTableAfter, Recipes.RecipesAfter, Recipes.HealthAfter,
         Recipes.RunsAfter, Recipes.Blank;
  }

  /** As a source has at most one active recipe, none is left. */
  lemma NoneStillActive(s: Recipes.State, id: Recipes.RecipeId, reason: string)
    requires RecipeRuns.OneActive(s.recipes) && Recipes.IsActive(s.recipes, id) && !Recipes.Blank(reason)
    ensures !StillActive(Recipes.Apply(s, Recipes.Supersede(id, reason)).recipes, s.recipes[id].source)
  {
  }
}
