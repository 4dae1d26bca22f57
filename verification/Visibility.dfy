/** Which items the list, the count and the export show, on the feed table as its runs leave it. */
module Visibility {
  import opened Common
  import opened UrlIdentity
  import opened Ranking
  import opened Projections
  import Feed = FeedItems
  import FeedRuns = FeedItemRuns

  // ----- What is shown

  /**
   Nothing is listed that is private, of an unapproved source or of a page without a recipe, or outside the filter.
   */
  lemma ListedItemsAreVisible(cat: Catalog, f: Filter, id: Id)
    requires id in AllSummaries(cat, f)
    ensures id in cat.rows && cat.rows[id].source in cat.sources && cat.rows[id].company in cat.companies
    ensures var row := cat.rows[id]; var source := cat.sources[row.source];
            && !row.isPrivate && source.approved && (source.kind.Rss? || source.kind.Atom? || source.recipe)
            && (f.company.Some? ==> row.company == f.company.value)
            && (f.source.Some? ==> row.source == f.source.value)
            && (f.kind.Some? ==> row.kind == f.kind.value)
            && (!f.includeFuture && row.publishedAt.Some? ==> row.publishedAt.value <= cat.now)
            && (f.search.Some? ==>
                  || Contains(row.title, f.search.value) || Contains(row.summary, f.search.value)
                  || Contains(cat.companies[row.company].name, f.search.value))
  {
    hide UrlPart, StoryPart, BySource, ByKind, ByRecency, Contains, RowNumber;
    assert id in OnePerStory(cat, f);
  }

  /**
   Every item that is not hidden in one of these ways is listed, or stands behind a listed one; none of them is private.
   */
  lemma VisibleItemsAreListed(cat: Catalog, f: Filter, id: Id) returns (byUrl: Id, listed: Id)
    requires id in cat.rows && cat.rows[id].source in cat.sources && cat.rows[id].company in cat.companies
    requires var row := cat.rows[id]; var source := cat.sources[row.source];
             && !row.isPrivate && source.approved && (source.kind.Rss? || source.kind.Atom? || source.recipe)
             && (f.company.Some? ==> row.company == f.company.value)
             && (f.source.Some? ==> row.source == f.source.value)
             && (f.kind.Some? ==> row.kind == f.kind.value)
             && (!f.includeFuture && row.publishedAt.Some? ==> row.publishedAt.value <= cat.now)
             && (f.search.Some? ==>
                   || Contains(row.title, f.search.value) || Contains(row.summary, f.search.value)
                   || Contains(cat.companies[row.company].name, f.search.value))
    ensures listed in AllSummaries(cat, f) && byUrl in cat.rows
    ensures !cat.rows[byUrl].isPrivate && cat.rows[byUrl].company == cat.rows[listed].company == cat.rows[id].company
    ensures IdentityKey(cat.rows[byUrl].canonicalUrl) == IdentityKey(cat.rows[id].canonicalUrl)
    ensures StoryOf(cat.rows[byUrl]) == StoryOf(cat.rows[listed])
  {
    hide BySource, ByKind, ByRecency, Contains, RowNumber, IdentityKey, StoryOf, Firsts, Ordered;
    assert id in Eligible(cat, f);
    byUrl, listed := EveryItemIsRepresented(cat, f, id);
    ListedItemsAreVisible(cat, f, listed);
  }

  /** Nothing is exported that is private, of the future, of an unapproved source or one not released for export. */
  lemma ExportedItemsAreVisible(cat: Catalog, t: Option<Target>, id: Id)
    requires id in ListExportable(cat, t)
    ensures t.Some? && id in cat.rows && cat.rows[id].source in cat.sources && cat.rows[id].company in cat.companies
    ensures var row := cat.rows[id]; var source := cat.sources[row.source];
            && !row.isPrivate && source.approved && (source.kind.Rss? || source.kind.Atom? || source.recipe)
            && !source.kind.OtherKind? && (source.exportAllowed || t.value.approvedPublic)
            && (row.publishedAt.Some? ==> row.publishedAt.value <= cat.now)
  {
    hide UrlPart, StoryPart, ArchivePart, ByContentAndSource, ByContentAndKind, ByAge, RowNumber;
    assert id in ExportPerArchiveUrl(cat, t);
  }

  /**
   Every item not held back in one of these ways is exported, or stands behind an exported one; none of them is private.
   */
  lemma VisibleItemsAreExported(cat: Catalog, t: Target, id: Id) returns (byUrl: Id, byStory: Id, listed: Id)
    requires id in cat.rows && cat.rows[id].source in cat.sources && cat.rows[id].company in cat.companies
    requires var row := cat.rows[id]; var source := cat.sources[row.source];
             && !row.isPrivate && source.approved && (source.kind.Rss? || source.kind.Atom? || source.recipe)
             && !source.kind.OtherKind? && (source.exportAllowed || t.approvedPublic)
             && (row.publishedAt.Some? ==> row.publishedAt.value <= cat.now)
    ensures listed in ListExportable(cat, Some(t)) && byUrl in cat.rows && byStory in cat.rows
    ensures !cat.rows[byUrl].isPrivate && !cat.rows[byStory].isPrivate
    ensures cat.rows[byUrl].company == cat.rows[byStory].company == cat.rows[id].company
    ensures IdentityKey(cat.rows[byUrl].canonicalUrl) == IdentityKey(cat.rows[id].canonicalUrl)
    ensures StoryOf(cat.rows[byUrl]) == StoryOf(cat.rows[byStory])
    ensures IdentityKey(cat.rows[listed].canonicalUrl) == IdentityKey(cat.rows[byStory].canonicalUrl)
    ensures cat.companies[cat.rows[listed].company].exportKey == cat.companies[cat.rows[id].company].exportKey
  {
    hide ByContentAndSource, ByContentAndKind, ByAge, RowNumber, IdentityKey, StoryOf, Firsts, Ordered;
    assert id in ExportEligible(cat, Some(t));
    byUrl, byStory, listed := EveryExportableIsRepresented(cat, Some(t), id);
    ExportedItemsAreVisible(cat, Some(t), listed);
  }

  // ----- The feed table behind the catalog

  function KindOf(sourceKind: string): Kind {
    if sourceKind == "rss" then Rss
    else if sourceKind == "atom" then Atom
    else if sourceKind == "html" then Html
    else if sourceKind == "browser" then Browser
    else OtherKind
  }

  function RowOf(item: Feed.Item, company: CompanyId): Row {
    Row(company, item.source, item.canonicalUrl, item.title, item.summary, item.bodyText, item.publishedAt,
        item.fetchedAt, item.createdAt, KindOf(item.sourceKind), item.isPrivate)
  }

  /** The catalog shows this state of the feed table; an item belongs to the company of its source. */
  ghost predicate ShowsTable(cat: Catalog, items: Feed.Table, companies: map<SourceId, CompanyId>) {
    && cat.rows.Keys == items.Keys
    && forall k :: k in items && items[k].source in companies ==>
         cat.rows[k] == RowOf(items[k], companies[items[k].source])
  }

  ghost predicate NowhereShown(items: Feed.Table, id: Id) {
    forall cat: Catalog, companies ::
      ShowsTable(cat, items, companies) && id in items && items[id].source in companies ==> Unshown(cat, id)
  }

  /** No filter lists it and no target exports it. */
  ghost predicate Unshown(cat: Catalog, id: Id) {
    && (forall f: Filter :: id !in AllSummaries(cat, f))
    && (forall t: Option<Target> :: id !in ListExportable(cat, t))
  }

  lemma PrivateIsUnshown(items: Feed.Table, id: Id)
    requires id in items ==> items[id].isPrivate
    ensures NowhereShown(items, id)
  {
    forall cat: Catalog, companies | ShowsTable(cat, items, companies) && id in items && items[id].source in companies
      ensures Unshown(cat, id)
    {
      assert cat.rows[id].isPrivate;
      hide AllSummaries, ListExportable;
      forall f: Filter
        ensures id !in AllSummaries(cat, f)
      {
        if id in AllSummaries(cat, f) { ListedItemsAreVisible(cat, f, id); }
      }
      forall t: Option<Target>
        ensures id !in ListExportable(cat, t)
      {
        if id in ListExportable(cat, t) { ExportedItemsAreVisible(cat, t, id); }
      }
    }
  }

  /** From the quarantine of an item on no filter lists it and no target exports it. */
  lemma QuarantineTakesEffect(items: Feed.Table, id: Id, record: Feed.Json)
    requires Feed.Enabled(items, Feed.Quarantine(id, record))
    ensures NowhereShown(Feed.Apply(items, Feed.Quarantine(id, record)), id)
  {
    PrivateIsUnshown(Feed.Apply(items, Feed.Quarantine(id, record)), id);
  }

  /** After the retirement of a source nothing of it is shown. */
  lemma RetirementTakesEffect(items: Feed.Table, src: SourceId, record: Feed.Json, id: Id)
    requires Feed.Enabled(items, Feed.Retire(src, record)) && id in items && items[id].source == src
    ensures NowhereShown(Feed.Apply(items, Feed.Retire(src, record)), id)
  {
    PrivateIsUnshown(Feed.Apply(items, Feed.Retire(src, record)), id);
  }

  /** An item under a record that does not allow release is shown in no state of any later run. */
  lemma LockedItemsAreNeverShown(items: Feed.Table, es: seq<Feed.Event>, id: Id)
    requires FeedRuns.Run(items, es) && FeedRuns.CleanRun(es) && id in items && FeedRuns.LockedAway(items[id])
    ensures NowhereShown(FeedRuns.Exec(items, es), id)
  {
    FeedRuns.NonReleasableStaysPrivate(items, es, id);
    PrivateIsUnshown(FeedRuns.Exec(items, es), id);
  }

  /** In every reachable state an item that carries a quarantine record is not shown. */
  lemma RecordedItemsAreNotShown(es: seq<Feed.Event>, id: Id)
    requires FeedRuns.Run(map[], es) && FeedRuns.CleanRun(es)
    requires id in FeedRuns.Exec(map[], es) && Feed.QUARANTINE in FeedRuns.Exec(map[], es)[id].processing
    ensures NowhereShown(FeedRuns.Exec(map[], es), id)
  {
    FeedRuns.PrivateExactlyWhenQuarantined(map[], es);
    PrivateIsUnshown(FeedRuns.Exec(map[], es), id);
  }
}
