/** Every column of a feed item as a function of the events of its run. */
module ItemHistory {
  import opened Common
  import opened UrlIdentity
  import opened FeedItems
  import opened FeedItemRuns

  // ----- What the history says

  /** The latest upsert of an item. */
  function LatestCrawl(es: seq<Event>, id: ItemId): Option<Event> {
    if es == [] then None
    else if Crawls(es[|es| - 1], id) then Some(es[|es| - 1])
    else LatestCrawl(es[..|es| - 1], id)
  }

  function FirstCrawl(es: seq<Event>, id: ItemId): Option<Event> {
    if es == [] then None
    else
      var first := FirstCrawl(es[..|es| - 1], id);
      if first.Some? then first else if Crawls(es[|es| - 1], id) then Some(es[|es| - 1]) else None
  }

  /** A hydration, or a crawl before the first hydration: what may write text. */
  predicate Writes(front: seq<Event>, e: Event, id: ItemId) {
    Hydrates(e, id) || (Crawls(e, id) && !EverHydrated(front, id))
  }

  /** The latest of them, where a hydration with a blank summary does not count. */
  function LatestSummary(es: seq<Event>, id: ItemId): Option<string> {
    if es == [] then None
    else
      var front, e := es[..|es| - 1], es[|es| - 1];
      if Writes(front, e, id) && !(Hydrates(e, id) && SqlBlank(e.obs.summary)) then Some(e.obs.summary)
      else LatestSummary(front, id)
  }

  function LatestFetch(es: seq<Event>, id: ItemId): Option<Time> {
    if es == [] then None
    else
      var front, e := es[..|es| - 1], es[|es| - 1];
      if Writes(front, e, id) then Some(e.obs.fetchedAt) else LatestFetch(front, id)
  }

  /** The date of the latest crawl or, if it has none, of the first hydration since that has one. */
  function DateOf(es: seq<Event>, id: ItemId): Option<Time> {
    if es == [] then None
    else
      var e, before := es[|es| - 1], DateOf(es[..|es| - 1], id);
      if Crawls(e, id) then e.obs.publishedAt
      else if Hydrates(e, id) && before.None? then e.obs.publishedAt
      else before
  }

  function LatestMark(es: seq<Event>, id: ItemId): Option<Json> {
    if es == [] then None
    else if Hydrates(es[|es| - 1], id) then Some(es[|es| - 1].mark)
    else LatestMark(es[..|es| - 1], id)
  }

  /** The value of a metadata key: of the latest observation since the latest crawl that has the key. */
  function LatestValue(es: seq<Event>, id: ItemId, key: string): Option<Json> {
    if es == [] then None
    else
      var e := es[|es| - 1];
      if (Crawls(e, id) || Hydrates(e, id)) && key in e.obs.processing then Some(e.obs.processing[key])
      else if Crawls(e, id) then None
      else LatestValue(es[..|es| - 1], id, key)
  }

  /** Whether an event hides this item, which is public until then. */
  predicate Hides(t: Table, e: Event, id: ItemId) {
    id in t && !t[id].isPrivate && ((e.Quarantine? && e.id == id) || (e.Retire? && e.src == t[id].source))
  }

  /** The record of the event that last hid the item. */
  function LatestRecord(es: seq<Event>, id: ItemId): Option<Json> {
    if es == [] then None
    else
      var front, e := es[..|es| - 1], es[|es| - 1];
      if Hides(Exec(map[], front), e, id) then Some(e.record) else LatestRecord(front, id)
  }

  function Lookup(metadata: Metadata, key: string): Option<Json> {
    if key in metadata then Some(metadata[key]) else None
  }

  // ----- What the columns are

  ghost predicate CrawlColumns(item: Item, es: seq<Event>, id: ItemId) {
    && FirstCrawl(es, id).Some? && FirstCrawl(es, id).value.Insert? && item.createdAt == FirstCrawl(es, id).value.at
    && LatestCrawl(es, id).Some?
    && var e := LatestCrawl(es, id).value;
       && (e.Insert? || e.Merge?) && item.rawId == Some(e.raw) && item.source == e.src
       && item.url == e.obs.url && item.title == e.obs.title && item.sourceKind == e.obs.sourceKind
       && item.raw == e.obs.raw && item.normalized == e.obs.normalized
  }

  ghost predicate TextColumns(item: Item, es: seq<Event>, id: ItemId) {
    && LatestSummary(es, id) == Some(item.summary)
    && LatestFetch(es, id) == Some(item.fetchedAt)
    && DateOf(es, id) == item.publishedAt
  }

  ghost predicate MetadataColumn(item: Item, es: seq<Event>, id: ItemId) {
    && Lookup(item.processing, CONTENT_CRAWL) == LatestMark(es, id)
    && Lookup(item.processing, QUARANTINE) == (if item.isPrivate then LatestRecord(es, id) else None)
    && forall key :: key != CONTENT_CRAWL && key != QUARANTINE ==>
         Lookup(item.processing, key) == LatestValue(es, id, key)
  }

  /** No item yet: nothing in the history is about it. */
  predicate Untouched(es: seq<Event>, id: ItemId) {
    && LatestCrawl(es, id).None? && FirstCrawl(es, id).None? && LatestSummary(es, id).None? && LatestFetch(es, id).None?
    && DateOf(es, id).None? && LatestMark(es, id).None? && LatestRecord(es, id).None? && !EverHydrated(es, id)
  }

  // ----- One more event

  lemma CrawlColumnsStep(t: Table, front: seq<Event>, e: Event, id: ItemId)
    requires Enabled(t, e) && id in Apply(t, e)
    requires if id in t then CrawlColumns(t[id], front, id)
             else LatestCrawl(front, id).None? && FirstCrawl(front, id).None?
    ensures CrawlColumns(Apply(t, e)[id], front + [e], id)
  {
    hide Conflict, ExternalTaken, CanonicalTaken, MergedProcessing, Released, Preferred, IdentityKey, SqlBlank;
    assert (front + [e])[..|front|] == front;
    if id !in t {
      assert e.Insert? && e.id == id;
    }
  }

  lemma HydratedWas(front: seq<Event>, e: Event, id: ItemId)
    ensures EverHydrated(front + [e], id) <==> EverHydrated(front, id) || Hydrates(e, id)
  {
    var es := front + [e];
    assert forall i :: 0 <= i < |front| ==> es[i] == front[i];
    assert es[|front|] == e;
  }

  lemma TextColumnsStep(t: Table, front: seq<Event>, e: Event, id: ItemId)
    requires Enabled(t, e) && id in Apply(t, e)
    requires if id in t then TextColumns(t[id], front, id) && (Hydrated(t[id]) <==> EverHydrated(front, id))
             else DateOf(front, id).None? && !EverHydrated(front, id)
    ensures TextColumns(Apply(t, e)[id], front + [e], id)
  {
    hide Conflict, ExternalTaken, CanonicalTaken, MergedProcessing, Released, Preferred, IdentityKey, SqlBlank,
         EverHydrated, Hydrated;
    assert (front + [e])[..|front|] == front;
  }

  lemma ReservedKeysDiffer()
    ensures QUARANTINE != CONTENT_CRAWL
  {
    assert QUARANTINE[0] == 'q' && CONTENT_CRAWL[0] == 'c';
  }

  lemma MarkStep(t: Table, front: seq<Event>, e: Event, id: ItemId)
    requires Enabled(t, e) && CleanEvent(e) && id in Apply(t, e)
    requires if id in t then Lookup(t[id].processing, CONTENT_CRAWL) == LatestMark(front, id)
             else LatestMark(front, id).None?
    ensures Lookup(Apply(t, e)[id].processing, CONTENT_CRAWL) == LatestMark(front + [e], id)
  {
    hide Conflict, ExternalTaken, CanonicalTaken, Released, Preferred, IdentityKey, SqlBlank;
    ReservedKeysDiffer();
    assert (front + [e])[..|front|] == front;
  }

  lemma ValueStep(t: Table, front: seq<Event>, e: Event, id: ItemId, key: string)
    requires Enabled(t, e) && id in Apply(t, e) && key != CONTENT_CRAWL && key != QUARANTINE
    requires if id in t then Lookup(t[id].processing, key) == LatestValue(front, id, key)
             else LatestCrawl(front, id).None?
    ensures Lookup(Apply(t, e)[id].processing, key) == LatestValue(front + [e], id, key)
  {
    hide Conflict, ExternalTaken, CanonicalTaken, Released, Preferred, IdentityKey, SqlBlank;
    assert (front + [e])[..|front|] == front;
  }

  lemma RecordStep(t: Table, front: seq<Event>, e: Event, id: ItemId)
    requires Enabled(t, e) && CleanEvent(e) && id in Apply(t, e) && t == Exec(map[], front) && PrivacyOk(t)
    requires id in t ==>
               Lookup(t[id].processing, QUARANTINE) == if t[id].isPrivate then LatestRecord(front, id) else None
    ensures var b := Apply(t, e)[id];
            Lookup(b.processing, QUARANTINE) == if b.isPrivate then LatestRecord(front + [e], id) else None
  {
    hide Conflict, ExternalTaken, CanonicalTaken, Preferred, IdentityKey, SqlBlank, ReleasableReason;
    ReservedKeysDiffer();
    assert (front + [e])[..|front|] == front;
  }

  lemma UntouchedStep(t: Table, front: seq<Event>, e: Event, id: ItemId)
    requires Enabled(t, e) && t == Exec(map[], front) && Untouched(front, id) && id !in t && id !in Apply(t, e)
    ensures Untouched(front + [e], id)
  {
    hide Conflict, Exec, SqlBlank, EverHydrated;
    assert (front + [e])[..|front|] == front;
    HydratedWas(front, e, id);
    assert e.Merge? ==> e.id in t by { BestIsThere(t, e); }
  }

  lemma BestIsThere(t: Table, e: Event)
    requires Enabled(t, e)
    ensures e.Merge? ==> e.id in t
  {
    hide IdentityKey, Preferred, Conflict;
  }

  // ----- The main result

  ghost predicate MatchesHistory(item: Item, es: seq<Event>, id: ItemId) {
    CrawlColumns(item, es, id) && TextColumns(item, es, id) && MetadataColumn(item, es, id)
  }

  lemma {:induction false} History(es: seq<Event>, id: ItemId)
    requires Run(map[], es) && CleanRun(es)
    ensures var t := Exec(map[], es); if id in t then MatchesHistory(t[id], es, id) else Untouched(es, id)
  {
    hide Enabled, Apply, CrawlColumns, TextColumns, Untouched;
    if es == [] {
      NothingYet(id);
    } else {
      var front, e := es[..|es| - 1], es[|es| - 1];
      assert front + [e] == es;
      var t := Exec(map[], front);
      assert CleanRun(front) by { assert forall i :: 0 <= i < |front| ==> front[i] == es[i]; }
      History(front, id);
      if id in Apply(t, e) {
        PrivateExactlyWhenQuarantined(map[], front);
        BodyHistory(front, id);
        OneMore(t, front, e, id);
      } else {
        if id in t { ItemsStay(t, e, id); }
        UntouchedStep(t, front, e, id);
      }
    }
  }

  lemma NothingYet(id: ItemId)
    ensures Untouched([], id)
  {
  }

  lemma ItemsStay(t: Table, e: Event, id: ItemId)
    requires id in t
    ensures id in Apply(t, e)
  {
  }

  lemma OneMore(t: Table, front: seq<Event>, e: Event, id: ItemId)
    requires Enabled(t, e) && CleanEvent(e) && id in Apply(t, e) && t == Exec(map[], front) && PrivacyOk(t)
    requires if id in t then MatchesHistory(t[id], front, id) && BodyMatchesHistory(t[id], front, id)
             else Untouched(front, id)
    ensures MatchesHistory(Apply(t, e)[id], front + [e], id)
  {
    hide Enabled, Apply, CrawlColumns, TextColumns, Exec, PrivacyOk, LatestMark, LatestRecord, LatestValue;
    CrawlColumnsStep(t, front, e, id);
    TextColumnsStep(t, front, e, id);
    MarkStep(t, front, e, id);
    RecordStep(t, front, e, id);
    forall key | key != CONTENT_CRAWL && key != QUARANTINE
      ensures Lookup(Apply(t, e)[id].processing, key) == LatestValue(front + [e], id, key)
    {
      ValueStep(t, front, e, id, key);
    }
  }

  /**
   In every reachable state, title, address, kind, source, raw row and raw and normalized documents of an item are those
   of its latest crawl, and it was created by its first.
   */
  lemma CrawlsGiveTheColumns(es: seq<Event>, id: ItemId)
    requires Run(map[], es) && CleanRun(es) && id in Exec(map[], es)
    ensures CrawlColumns(Exec(map[], es)[id], es, id)
  {
    History(es, id);
  }

  /**
   Summary and fetch time are those of the latest crawl until the first hydration and follow the hydrations then, a
   blank summary aside; the date is that of the latest crawl or of the first hydration since that has one.
   */
  lemma TextFollowsHydrations(es: seq<Event>, id: ItemId)
    requires Run(map[], es) && CleanRun(es) && id in Exec(map[], es)
    ensures TextColumns(Exec(map[], es)[id], es, id)
  {
    History(es, id);
  }

  /**
   The metadata holds the mark of the latest hydration, the record of the event that last hid the item as long as it is
   private, and under every other key the value of the latest observation since the latest crawl.
   */
  lemma MetadataFollowsHistory(es: seq<Event>, id: ItemId)
    requires Run(map[], es) && CleanRun(es) && id in Exec(map[], es)
    ensures MetadataColumn(Exec(map[], es)[id], es, id)
  {
    History(es, id);
  }

  // ----- Privacy

  /** Hidden by a quarantine or retirement, and not released by a merge since. */
  predicate IsHidden(es: seq<Event>, id: ItemId) {
    es != [] &&
    var front, e := es[..|es| - 1], es[|es| - 1];
    var t := Exec(map[], front);
    if Hides(t, e, id) then true
    else if e.Merge? && e.id == id && id in t && ReleasableReason(t[id].processing).Some? then false
    else IsHidden(front, id)
  }

  lemma HiddenStep(t: Table, front: seq<Event>, e: Event, id: ItemId)
    requires Enabled(t, e) && t == Exec(map[], front) && id in Apply(t, e)
    requires if id in t then t[id].isPrivate <==> IsHidden(front, id) else !IsHidden(front, id)
    ensures Apply(t, e)[id].isPrivate <==> IsHidden(front + [e], id)
  {
    hide Conflict, ExternalTaken, CanonicalTaken, Preferred, IdentityKey, SqlBlank, ReleasableReason,
         MergedProcessing, Exec;
    assert (front + [e])[..|front|] == front;
  }

  /** In every reachable state an item is private exactly if it was hidden and not released since. */
  lemma {:induction false} PrivacyFollowsHistory(es: seq<Event>, id: ItemId)
    requires Run(map[], es)
    ensures id in Exec(map[], es) ==> (Exec(map[], es)[id].isPrivate <==> IsHidden(es, id))
    ensures id !in Exec(map[], es) ==> !IsHidden(es, id)
  {
    hide Enabled, Apply;
    if es != [] {
      var front, e := es[..|es| - 1], es[|es| - 1];
      assert front + [e] == es;
      PrivacyFollowsHistory(front, id);
      if id in Exec(map[], es) {
        HiddenStep(Exec(map[], front), front, e, id);
      } else {
        if id in Exec(map[], front) { ItemsStay(Exec(map[], front), e, id); }
      }
    }
  }
}
