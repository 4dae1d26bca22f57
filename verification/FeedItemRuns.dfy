/** What holds over every run of upserts, hydrations and quarantines of feed items. */
module FeedItemRuns {
  import opened Common
  import opened UrlIdentity
  import opened FeedItems

  function Exec(items: Table, es: seq<Event>): Table {
    if es == [] then items else Apply(Exec(items, es[..|es| - 1]), es[|es| - 1])
  }

  predicate Run(items: Table, es: seq<Event>) {
    es != [] ==> Run(items, es[..|es| - 1]) && Enabled(Exec(items, es[..|es| - 1]), es[|es| - 1])
  }

  /** The metadata that normalization produces: counters of the sanitizer and the input size. */
  function NormalizerMetadata(strippedElements: nat, strippedAttributes: nat, links: nat, images: nat,
                              bytes: nat): Metadata {
    map["stripped_elements" := JNumber(strippedElements), "stripped_attributes" := JNumber(strippedAttributes),
        "link_count" := JNumber(links), "image_count" := JNumber(images), "input_html_bytes" := JNumber(bytes)]
  }

  /** Observations carry normalizer metadata, which has neither of the two reserved keys. */
  predicate CleanMetadata(metadata: Metadata) { QUARANTINE !in metadata && CONTENT_CRAWL !in metadata }

  lemma NormalizerMetadataIsClean(strippedElements: nat, strippedAttributes: nat, links: nat, images: nat, bytes: nat)
    ensures CleanMetadata(NormalizerMetadata(strippedElements, strippedAttributes, links, images, bytes))
  {
    assert QUARANTINE[0] == 'q' && CONTENT_CRAWL[0] == 'c';
  }

  predicate CleanEvent(e: Event) {
    (e.Insert? || e.Merge? || e.Hydrate?) ==> CleanMetadata(e.obs.processing)
  }

  predicate CleanRun(es: seq<Event>) { forall i :: 0 <= i < |es| ==> CleanEvent(es[i]) }

  // ----- Identity

  /** All three keys stay unique through every upsert, hydration, quarantine, release and retirement. */
  lemma KeysStayUnique(items: Table, e: Event)
    requires KeysUnique(items) && Enabled(items, e)
    ensures KeysUnique(Apply(items, e))
  {
    hide IdentityKey;
    if e.Insert? {
      InsertKeepsKeys(items, e.src, e.obs, e.raw, e.at, e.id);
    } else if e.Merge? {
      MergeKeepsKeys(items, e.src, e.obs, e.raw, e.id);
    } else {
      var after := Apply(items, e);
      forall a, b | a in after && b in after && Collide(after[a], after[b])
        ensures a == b
      {
        assert Collide(items[a], items[b]);
      }
    }
  }

  lemma {:induction false} ReachableKeysUnique(items: Table, es: seq<Event>)
    requires KeysUnique(items) && Run(items, es)
    ensures KeysUnique(Exec(items, es))
  {
    if es != [] {
      ReachableKeysUnique(items, es[..|es| - 1]);
      KeysStayUnique(Exec(items, es[..|es| - 1]), es[|es| - 1]);
    }
  }

  /**
   After an upsert, the observation's external id and canonical URL each belong to exactly one row
   of the source, and the chosen row shows the fetched URL; if it is public, it alone owns that
   address in public.
   */
  lemma UpsertOwnsEveryKey(items: Table, e: Event)
    requires KeysUnique(items) && Enabled(items, e) && (e.Insert? || e.Merge?)
    ensures var t := Apply(items, e);
            && (exists k :: k in t && t[k].source == e.src && t[k].externalId == e.obs.externalId)
            && (exists k :: k in t && t[k].source == e.src && t[k].canonicalUrl == e.obs.canonicalUrl)
            && e.id in t && t[e.id].source == e.src && t[e.id].url == e.obs.url
            && (!t[e.id].isPrivate ==>
                  forall k :: k in t && t[k].source == e.src && OwnsIdentity(t[k], e.obs) ==> k == e.id)
            && (forall k :: k in items && k != e.id ==> k in t && t[k] == items[k])
  {
    hide IdentityKey, ReleasableReason, KeysUnique, Conflict, Preferred, MergedProcessing;
    var t := Apply(items, e);
    KeysStayUnique(items, e);
    if e.Merge? {
      if ExternalTaken(items, e.id, e.src, e.obs.externalId) {
        var k :| k in items && k != e.id && items[k].source == e.src && items[k].externalId == e.obs.externalId;
        assert t[k].externalId == e.obs.externalId;
      } else {
        assert t[e.id].externalId == e.obs.externalId;
      }
      if CanonicalTaken(items, e.id, e.src, e.obs.canonicalUrl) {
        var k :| k in items && k != e.id && items[k].source == e.src && items[k].canonicalUrl == e.obs.canonicalUrl;
        assert t[k].canonicalUrl == e.obs.canonicalUrl;
      } else {
        assert t[e.id].canonicalUrl == e.obs.canonicalUrl;
      }
    } else {
      assert t[e.id].externalId == e.obs.externalId && t[e.id].canonicalUrl == e.obs.canonicalUrl;
    }
    if !t[e.id].isPrivate { PublicOwnerIsAlone(t, e.id, e.obs); }
  }

  lemma PublicOwnerIsAlone(items: Table, id: ItemId, obs: Observation)
    requires KeysUnique(items) && id in items && items[id].url == obs.url && !items[id].isPrivate
    ensures forall k :: k in items && items[k].source == items[id].source && OwnsIdentity(items[k], obs) ==> k == id
  {
    hide IdentityKey;
    forall k | k in items && items[k].source == items[id].source && OwnsIdentity(items[k], obs)
      ensures k == id
    {
      assert Collide(items[k], items[id]);
    }
  }

  /** The conflict that stopped an insert can always be identified. */
  lemma ConflictHasAMatch(items: Table, src: SourceId, obs: Observation)
    requires Conflict(items, src, obs)
    ensures exists k :: k in items && Matches(items[k], src, obs)
  {
    hide IdentityKey;
    var k :| k in items && items[k].source == src &&
             (items[k].externalId == obs.externalId || items[k].canonicalUrl == obs.canonicalUrl ||
              (!items[k].isPrivate && SameIdentity(items[k].url, obs.url)));
    assert Matches(items[k], src, obs);
  }

  /** Applying an item again at once chooses the same row and changes nothing. */
  lemma ReapplyChangesNothing(items: Table, e: Event, id: ItemId)
    requires KeysUnique(items) && Enabled(items, e) && (e.Insert? || e.Merge?) && CleanMetadata(e.obs.processing)
    requires BestMatch(Apply(items, e), e.src, e.obs, id)
    ensures Conflict(Apply(items, e), e.src, e.obs)
    ensures id == e.id
    ensures Apply(Apply(items, e), Merge(e.src, e.obs, e.raw, id)) == Apply(items, e)
  {
    hide IdentityKey;
    var t := Apply(items, e);
    KeysStayUnique(items, e);
    UpsertOwnsEveryKey(items, e);
    SameRowAgain(items, e, id);
    MergedAgain(items, e);
    assert t[e.id := t[e.id]] == t;
  }

  lemma SameRowAgain(items: Table, e: Event, id: ItemId)
    requires KeysUnique(items) && Enabled(items, e) && (e.Insert? || e.Merge?)
    requires BestMatch(Apply(items, e), e.src, e.obs, id)
    ensures id == e.id
  {
    hide IdentityKey, ReleasableReason;
    var t := Apply(items, e);
    KeysStayUnique(items, e);
    assert Matches(t[e.id], e.src, e.obs);
    assert Collide(t[id], t[e.id]) ==> id == e.id;
    assert !Preferred(t[e.id], t[id], e.obs);
  }

  lemma MergedAgain(items: Table, e: Event)
    requires KeysUnique(items) && Enabled(items, e) && (e.Insert? || e.Merge?) && CleanMetadata(e.obs.processing)
    ensures var t := Apply(items, e); e.id in t && Merged(t, e.id, e.obs, e.raw) == t[e.id]
  {
    hide IdentityKey, ReleasableReason;
    var t := Apply(items, e);
    KeysStayUnique(items, e);
    var a, b := t[e.id], Merged(t, e.id, e.obs, e.raw);
    assert a.source == e.src;
    assert ExternalTaken(t, e.id, e.src, e.obs.externalId) <==> ExternalTaken(items, e.id, e.src, e.obs.externalId) by {
      assert forall k :: k != e.id ==> ((k in t <==> k in items) && (k in t ==> t[k] == items[k]));
    }
    assert CanonicalTaken(t, e.id, e.src, e.obs.canonicalUrl) <==>
        CanonicalTaken(items, e.id, e.src, e.obs.canonicalUrl) by {
      assert forall k :: k != e.id ==> ((k in t <==> k in items) && (k in t ==> t[k] == items[k]));
    }
    assert b.externalId == a.externalId;
    assert b.canonicalUrl == a.canonicalUrl;
    assert b.processing == a.processing by { ProcessingAgain(items, e); }
    assert Released(a) ==> !a.isPrivate by { ProcessingAgain(items, e); }
  }

  lemma ProcessingAgain(items: Table, e: Event)
    requires Enabled(items, e) && (e.Insert? || e.Merge?) && CleanMetadata(e.obs.processing)
    ensures var a := Apply(items, e)[e.id]; MergedProcessing(a, e.obs) == a.processing && !Released(a)
  {
    hide IdentityKey;
    var a := Apply(items, e)[e.id];
    if e.Insert? {
      assert a.processing == e.obs.processing;
    } else {
      var item := items[e.id];
      assert Hydrated(a) <==> Hydrated(item);
      assert QUARANTINE != CONTENT_CRAWL by { assert QUARANTINE[0] == 'q'; }
      assert Hydrated(item) ==> a.processing[CONTENT_CRAWL] == item.processing[CONTENT_CRAWL];
      assert QUARANTINE in a.processing <==> item.isPrivate && !Released(item) && QUARANTINE in item.processing;
      assert QUARANTINE in a.processing ==> a.processing[QUARANTINE] == item.processing[QUARANTINE];
      assert a.isPrivate ==> ReleasableReason(a.processing) == ReleasableReason(item.processing);
      assert !Released(a);
      assert MergedProcessing(a, e.obs) == a.processing;
    }
  }

  // ----- Quarantine

  /** An item is private exactly when its metadata carries a quarantine record. */
  predicate PrivacyOk(items: Table) {
    forall k :: k in items ==> (items[k].isPrivate <==> QUARANTINE in items[k].processing)
  }

  lemma PrivacyStaysOk(items: Table, e: Event)
    requires PrivacyOk(items) && Enabled(items, e) && CleanEvent(e)
    ensures PrivacyOk(Apply(items, e))
  {
    hide IdentityKey, Conflict, BestMatch, ExternalTaken, CanonicalTaken;
    assert QUARANTINE != CONTENT_CRAWL by { assert QUARANTINE[0] == 'q'; }
    var t := Apply(items, e);
    forall k | k in t
      ensures t[k].isPrivate <==> QUARANTINE in t[k].processing
    {
    }
  }

  lemma {:induction false} PrivateExactlyWhenQuarantined(items: Table, es: seq<Event>)
    requires PrivacyOk(items) && Run(items, es) && CleanRun(es)
    ensures PrivacyOk(Exec(items, es))
  {
    if es != [] {
      var front := es[..|es| - 1];
      assert CleanRun(front) by { assert forall i :: 0 <= i < |front| ==> front[i] == es[i]; }
      PrivateExactlyWhenQuarantined(items, front);
      PrivacyStaysOk(Exec(items, front), es[|es| - 1]);
    }
  }

  /** A quarantine whose policy or reason does not allow release. */
  predicate LockedAway(item: Item) {
    item.isPrivate && QUARANTINE in item.processing && ReleasableReason(item.processing).None?
  }

  lemma LockedStepStays(items: Table, e: Event, id: ItemId)
    requires Enabled(items, e) && CleanEvent(e) && id in items && LockedAway(items[id])
    ensures var t := Apply(items, e);
            id in t && LockedAway(t[id]) && t[id].processing[QUARANTINE] == items[id].processing[QUARANTINE]
  {
    hide IdentityKey, Conflict, BestMatch, ExternalTaken, CanonicalTaken, ReleasablePolicy;
    assert QUARANTINE != CONTENT_CRAWL by { assert QUARANTINE[0] == 'q'; }
    var a, b := items[id], Apply(items, e)[id];
    assert b.isPrivate && QUARANTINE in b.processing && b.processing[QUARANTINE] == a.processing[QUARANTINE];
    assert ReleasableReason(b.processing) == ReleasableReason(a.processing);
  }

  /** Such an item stays private, with the same record, through every later event. */
  lemma {:induction false} NonReleasableStaysPrivate(items: Table, es: seq<Event>, id: ItemId)
    requires Run(items, es) && CleanRun(es) && id in items && LockedAway(items[id])
    ensures var t := Exec(items, es);
            id in t && LockedAway(t[id]) && t[id].processing[QUARANTINE] == items[id].processing[QUARANTINE]
  {
    if es != [] {
      var front := es[..|es| - 1];
      assert CleanRun(front) by { assert forall i :: 0 <= i < |front| ==> front[i] == es[i]; }
      NonReleasableStaysPrivate(items, front, id);
      LockedStepStays(Exec(items, front), es[|es| - 1], id);
    }
  }

  /** Only a merge of a successful normalization makes a private item public, and it drops the record. */
  lemma OnlyAMergeReleases(items: Table, e: Event, id: ItemId)
    requires Enabled(items, e) && CleanEvent(e) && id in items && items[id].isPrivate && !Apply(items, e)[id].isPrivate
    ensures e.Merge? && e.id == id
    ensures ReleasableReason(items[id].processing).Some?
    ensures QUARANTINE !in Apply(items, e)[id].processing
  {
    hide IdentityKey, Conflict, BestMatch, ExternalTaken, CanonicalTaken, ReleasableReason;
    assert QUARANTINE != CONTENT_CRAWL by { assert QUARANTINE[0] == 'q'; }
  }

  /** Of the failures that hide items at run time, exactly the company-scope one cannot be lifted by a later crawl. */
  lemma RuntimeQuarantineIsReleasable(item: Item, reason: string, details: Metadata)
    requires RuntimeQuarantineReason(reason)
    ensures var hidden := Quarantined(item, QuarantineRecord(reason, RuntimePolicy(reason), true, details));
            LockedAway(hidden) <==> reason == "article_not_company_scoped"
  {
    var record := QuarantineRecord(reason, RuntimePolicy(reason), true, details);
    var hidden := Quarantined(item, record);
    assert hidden.processing[QUARANTINE] == record;
    RecordFields(reason, RuntimePolicy(reason), details);
    RuntimePolicies();
  }

  lemma RecordFields(reason: string, policy: string, details: Metadata)
    ensures var record := QuarantineRecord(reason, policy, true, details);
            Field(record, "policy") == Some(JStr(policy)) && Field(record, "reason") == Some(JStr(reason))
  {
    assert "policy"[0] == 'p' && "reason"[2] == 'a' && "reversible"[2] == 'v' && "state"[0] == 's';
  }

  lemma RuntimePolicies()
    ensures !ReleasablePolicy("company-scope-relevance.v4")
    ensures ReleasablePolicy("cross-company-item-scope.v1")
    ensures ReleasablePolicy("recipe-runtime-artifact.v1")
  {
    var company, cross, runtime := "company-scope-relevance.v4", "cross-company-item-scope.v1",
        "recipe-runtime-artifact.v1";
    var listing, diversity, scope := "recipe-listing-artifact.v", "recipe-content-diversity.v",
        "cross-company-item-scope.v";
    assert company[1] == 'o' && cross[1] == 'r' && runtime[7] == 'r';
    assert listing[0] == 'r' && listing[7] == 'l' && diversity[0] == 'r' && diversity[7] == 'c' && scope[1] == 'r';
    assert cross == scope + "1" && scope <= cross && cross[|scope|..] == "1";
    assert "shared-direct-scope.v1"[0] == 's' && "shared-direct-scope.v2"[0] == 's';
  }

  // ----- Where a body comes from

  datatype Body = Body(text: string, html: string, markdown: string, hash: string)

  function BodyOf(item: Item): Body { Body(item.bodyText, item.bodyHtml, item.bodyMarkdown, item.contentHash) }

  function BodyIn(obs: Observation): Body { Body(obs.bodyText, obs.bodyHtml, obs.bodyMarkdown, obs.contentHash) }

  predicate Crawls(e: Event, id: ItemId) { (e.Insert? || e.Merge?) && e.id == id }

  predicate Hydrates(e: Event, id: ItemId) { e.Hydrate? && e.id == id }

  predicate EverHydrated(es: seq<Event>, id: ItemId) {
    exists i :: 0 <= i < |es| && Hydrates(es[i], id)
  }

  /** The latest hydration of an item whose text is not blank. */
  function LastHydration(es: seq<Event>, id: ItemId): Option<Body> {
    if es == [] then None else
      var e := es[|es| - 1];
      if Hydrates(e, id) && !SqlBlank(e.obs.bodyText) then Some(BodyIn(e.obs)) else LastHydration(es[..|es| - 1], id)
  }

  /** The latest crawl of an item before its first hydration. */
  function LastCrawl(es: seq<Event>, id: ItemId): Option<Body> {
    if es == [] then None else
      var front, e := es[..|es| - 1], es[|es| - 1];
      if Crawls(e, id) && !EverHydrated(front, id) then Some(BodyIn(e.obs)) else LastCrawl(front, id)
  }

  predicate BodyMatchesHistory(item: Item, es: seq<Event>, id: ItemId) {
    && (Hydrated(item) <==> EverHydrated(es, id))
    && Some(BodyOf(item)) == if LastHydration(es, id).Some? then LastHydration(es, id) else LastCrawl(es, id)
  }

  lemma BodyStep(t: Table, front: seq<Event>, e: Event, id: ItemId)
    requires Enabled(t, e) && CleanEvent(e)
    requires if id in t then BodyMatchesHistory(t[id], front, id) else !EverHydrated(front, id)
    ensures if id in Apply(t, e) then BodyMatchesHistory(Apply(t, e)[id], front + [e], id)
            else !EverHydrated(front + [e], id)
  {
    hide IdentityKey, Conflict, BestMatch, ExternalTaken, CanonicalTaken, ReleasableReason, SqlBlank;
    assert QUARANTINE != CONTENT_CRAWL by { assert QUARANTINE[0] == 'q'; }
    var es := front + [e];
    assert es[..|es| - 1] == front && es[|es| - 1] == e;
    assert EverHydrated(es, id) <==> EverHydrated(front, id) || Hydrates(e, id) by {
      assert forall i :: 0 <= i < |front| ==> es[i] == front[i];
      assert es[|front|] == e;
    }
    assert LastHydration(es, id) ==
           if Hydrates(e, id) && !SqlBlank(e.obs.bodyText) then Some(BodyIn(e.obs)) else LastHydration(front, id);
    assert LastCrawl(es, id) == if Crawls(e, id) && !EverHydrated(front, id) then Some(BodyIn(e.obs))
        else LastCrawl(front, id);
    if id in t {
      var a, b := t[id], Apply(t, e)[id];
      assert Hydrated(b) <==> Hydrated(a) || Hydrates(e, id);
      assert BodyOf(b) == if (Hydrates(e, id) && !SqlBlank(e.obs.bodyText)) || (Crawls(e, id) && !Hydrated(a))
                          then BodyIn(e.obs) else BodyOf(a);
      if !Hydrated(a) { NoHydrationNoBody(front, id); }
    } else if id in Apply(t, e) {
      NoHydrationNoBody(front, id);
      assert BodyOf(Apply(t, e)[id]) == BodyIn(e.obs);
      assert !Hydrated(Apply(t, e)[id]);
    }
  }

  lemma {:induction false} NoHydrationNoBody(es: seq<Event>, id: ItemId)
    requires !EverHydrated(es, id)
    ensures LastHydration(es, id).None?
  {
    hide SqlBlank;
    if es != [] {
      var front := es[..|es| - 1];
      assert !Hydrates(es[|es| - 1], id);
      assert forall i :: 0 <= i < |front| ==> front[i] == es[i];
      NoHydrationNoBody(front, id);
    }
  }

  lemma {:induction false} BodyHistory(es: seq<Event>, id: ItemId)
    requires Run(map[], es) && CleanRun(es)
    ensures var t := Exec(map[], es);
            if id in t then BodyMatchesHistory(t[id], es, id) else !EverHydrated(es, id)
  {
    if es != [] {
      var front, e := es[..|es| - 1], es[|es| - 1];
      assert CleanRun(front) by { assert forall i :: 0 <= i < |front| ==> front[i] == es[i]; }
      BodyHistory(front, id);
      BodyStep(Exec(map[], front), front, e, id);
      assert front + [e] == es;
    }
  }

  /**
   In every reachable state an item's text, HTML, Markdown and hash come from one and the same
   observation: its latest hydration that was not blank, or else its last crawl before any hydration.
   The hydration mark is on the item exactly when it has ever been hydrated.
   */
  lemma BodyHasOneOrigin(es: seq<Event>, id: ItemId)
    requires Run(map[], es) && CleanRun(es) && id in Exec(map[], es)
    ensures var item := Exec(map[], es)[id];
            && (Hydrated(item) <==> EverHydrated(es, id))
            && Some(BodyOf(item)) == if LastHydration(es, id).Some? then LastHydration(es, id) else LastCrawl(es, id)
  {
    BodyHistory(es, id);
  }

  /** Once hydrated, no crawl, quarantine, release or retirement changes an item's body. */
  lemma CrawlsKeepHydratedBody(items: Table, e: Event, id: ItemId)
    requires Enabled(items, e) && CleanEvent(e) && id in items && Hydrated(items[id]) && !Hydrates(e, id)
    ensures BodyOf(Apply(items, e)[id]) == BodyOf(items[id]) && Hydrated(Apply(items, e)[id])
    ensures Apply(items, e)[id].processing[CONTENT_CRAWL] == items[id].processing[CONTENT_CRAWL]
  {
    hide IdentityKey, Conflict, BestMatch, ExternalTaken, CanonicalTaken, ReleasableReason;
    assert QUARANTINE != CONTENT_CRAWL by { assert QUARANTINE[0] == 'q'; }
  }
}
