/**
 The feed_items table: the upsert on three overlapping keys, hydration, and quality
 quarantine with its release.  Events, `Enabled` and `Apply` are as in Jobs.dfy.
 */
module FeedItems {
  import opened Common
  import opened UrlIdentity

  type ItemId = nat
  type SourceId = nat
  type Time = int

  datatype Json =
    | JNull
    | JBool(flag: bool)
    | JNumber(number: int)
    | JStr(text: string)
    | JArr(elements: seq<Json>)
    | JObj(fields: map<string, Json>)

  type Metadata = map<string, Json>

  /** A raw_crawl_items row is named by its crawl run and source item key. */
  type RawId = (nat, string)

  /** A normalized item, from a crawl of its source or from hydrating its article. */
  datatype Observation = Observation(
    externalId: string,
    url: string,
    canonicalUrl: string,
    title: string,
    summary: string,
    bodyText: string,
    bodyHtml: string,
    bodyMarkdown: string,
    publishedAt: Option<Time>,
    fetchedAt: Time,
    contentHash: string,
    sourceKind: string,
    raw: Json,
    normalized: Json,
    processing: Metadata)

  datatype Item = Item(
    source: SourceId,
    rawId: Option<RawId>,
    externalId: string,
    url: string,
    canonicalUrl: string,
    title: string,
    summary: string,
    bodyText: string,
    bodyHtml: string,
    bodyMarkdown: string,
    publishedAt: Option<Time>,
    fetchedAt: Time,
    contentHash: string,
    sourceKind: string,
    raw: Json,
    normalized: Json,
    processing: Metadata,
    isPrivate: bool,
    createdAt: Time)

  type Table = map<ItemId, Item>

  const QUARANTINE := "quality_quarantine"
  const CONTENT_CRAWL := "content_crawl"

  // ----- Releasable quarantines

  predicate AllDigits(s: string) { forall i :: 0 <= i < |s| ==> '0' <= s[i] <= '9' }

  function StripPrefix(s: string, prefix: string): Option<string> {
    if prefix <= s then Some(s[|prefix|..]) else None
  }

  function ReleasablePolicy(policy: string): bool {
    var listing := StripPrefix(policy, "recipe-listing-artifact.v");
    var diversity := StripPrefix(policy, "recipe-content-diversity.v");
    var scope := StripPrefix(policy, "cross-company-item-scope.v");
    if listing.Some? then listing.value != "" && AllDigits(listing.value)
    else if diversity.Some? then diversity.value != "" && AllDigits(diversity.value)
    else if scope.Some? then scope.value != "" && AllDigits(scope.value)
    else policy in {"recipe-runtime-artifact.v1", "shared-direct-scope.v1", "shared-direct-scope.v2"}
  }

  function Field(value: Json, name: string): Option<Json> {
    if value.JObj? && name in value.fields then Some(value.fields[name]) else None
  }

  /** The policy and reason of a quarantine that a successful normalization may lift. */
  function ReleasableReason(processing: Metadata): Option<(string, string)> {
    if QUARANTINE !in processing then None else
      var policy := Field(processing[QUARANTINE], "policy");
      var reason := Field(processing[QUARANTINE], "reason");
      if policy.None? || !policy.value.JStr? || !ReleasablePolicy(policy.value.text) then None
      else if reason.None? || !reason.value.JStr? then None
      else Some((policy.value.text, reason.value.text))
  }

  const REPLAY_SAFE_REASONS := {
    "article_outside_dominant_editorial_namespace", "article_outside_recipe_scope",
    "double_encoded_utf8_url_alias", "generic_listing_title", "high_link_density_collection",
    "multiple_article_collection", "obvious_listing_path", "year_archive_collection"}

  predicate RuntimeQuarantineReason(reason: string) {
    reason in {"article_not_company_scoped", "cross_company_item_not_explicitly_scoped"} ||
        reason in REPLAY_SAFE_REASONS
  }

  function RuntimePolicy(reason: string): string {
    if reason == "article_not_company_scoped" then "company-scope-relevance.v4"
    else if reason == "cross_company_item_not_explicitly_scoped" then "cross-company-item-scope.v1"
    else "recipe-runtime-artifact.v1"
  }

  const OWNERSHIP_POLICY := "cross-company-feed-ownership.v1"

  /** The record that a quarantine leaves in the item's metadata. */
  function QuarantineRecord(reason: string, policy: string, reversible: bool, details: Metadata): Json {
    JObj(details + map["state" := JStr("quarantined"), "reason" := JStr(reason), "reversible" := JBool(reversible),
                       "policy" := JStr(policy)])
  }

  // ----- Keys

  predicate SameIdentity(a: string, b: string) { IdentityKey(a) == IdentityKey(b) }

  /** The three unique indexes. */
  predicate Collide(a: Item, b: Item) {
    a.source == b.source &&
    (a.externalId == b.externalId || a.canonicalUrl == b.canonicalUrl ||
     (!a.isPrivate && !b.isPrivate && SameIdentity(a.url, b.url)))
  }

  predicate KeysUnique(items: Table) {
    forall a, b :: a in items && b in items && Collide(items[a], items[b]) ==> a == b
  }

  function NewItem(src: SourceId, obs: Observation, raw: RawId, at: Time): Item {
    Item(src, Some(raw), obs.externalId, obs.url, obs.canonicalUrl, obs.title, obs.summary, obs.bodyText, obs.bodyHtml,
         obs.bodyMarkdown, obs.publishedAt, obs.fetchedAt, obs.contentHash, obs.sourceKind, obs.raw, obs.normalized,
         obs.processing, false, at)
  }

  /** What makes INSERT ... ON CONFLICT DO NOTHING insert nothing. */
  predicate Conflict(items: Table, src: SourceId, obs: Observation) {
    exists k :: k in items && items[k].source == src &&
                (items[k].externalId == obs.externalId || items[k].canonicalUrl == obs.canonicalUrl ||
                 (!items[k].isPrivate && SameIdentity(items[k].url, obs.url)))
  }

  /** The WHERE clause of the lookup that follows a conflict; private rows match by identity too. */
  predicate Matches(item: Item, src: SourceId, obs: Observation) {
    item.source == src &&
    (item.externalId == obs.externalId || item.canonicalUrl == obs.canonicalUrl || SameIdentity(item.url, obs.url))
  }

  predicate OwnsIdentity(item: Item, obs: Observation) { !item.isPrivate && SameIdentity(item.url, obs.url) }

  function Rank(flag: bool): int { if flag then 0 else 1 }

  /** The ORDER BY of the lookup: true sorts first. */
  predicate Preferred(a: Item, b: Item, obs: Observation) {
    var ia, ib := Rank(OwnsIdentity(a, obs)), Rank(OwnsIdentity(b, obs));
    var ca, cb := Rank(a.canonicalUrl == obs.canonicalUrl), Rank(b.canonicalUrl == obs.canonicalUrl);
    var ea, eb := Rank(a.externalId == obs.externalId), Rank(b.externalId == obs.externalId);
    if ia != ib then ia < ib
    else if ca != cb then ca < cb
    else if ea != eb then ea < eb
    else a.createdAt < b.createdAt
  }

  predicate BestMatch(items: Table, src: SourceId, obs: Observation, id: ItemId) {
    && id in items && Matches(items[id], src, obs)
    && forall k :: k in items && Matches(items[k], src, obs) ==> !Preferred(items[k], items[id], obs)
  }

  predicate ExternalTaken(items: Table, id: ItemId, src: SourceId, externalId: string) {
    exists k :: k in items && k != id && items[k].source == src && items[k].externalId == externalId
  }

  predicate CanonicalTaken(items: Table, id: ItemId, src: SourceId, canonicalUrl: string) {
    exists k :: k in items && k != id && items[k].source == src && items[k].canonicalUrl == canonicalUrl
  }

  // ----- The merge, column by column

  predicate Hydrated(item: Item) { CONTENT_CRAWL in item.processing }

  predicate Released(item: Item) { item.isPrivate && ReleasableReason(item.processing).Some? }

  function MergedProcessing(item: Item, obs: Observation): Metadata {
    obs.processing
    + (if Hydrated(item) then map[CONTENT_CRAWL := item.processing[CONTENT_CRAWL]] else map[])
    + (if item.isPrivate && !Released(item) && QUARANTINE in item.processing
       then map[QUARANTINE := item.processing[QUARANTINE]] else map[])
  }

  function Merged(items: Table, id: ItemId, obs: Observation, raw: RawId): Item
    requires id in items
  {
    var item := items[id];
    var keep := Hydrated(item);
    Item(item.source, Some(raw),
         if ExternalTaken(items, id, item.source, obs.externalId) then item.externalId else obs.externalId,
         obs.url,
         if CanonicalTaken(items, id, item.source, obs.canonicalUrl) then item.canonicalUrl else obs.canonicalUrl,
         obs.title,
         if keep then item.summary else obs.summary,
         if keep then item.bodyText else obs.bodyText,
         if keep then item.bodyHtml else obs.bodyHtml,
         if keep then item.bodyMarkdown else obs.bodyMarkdown,
         obs.publishedAt,
         if keep then item.fetchedAt else obs.fetchedAt,
         if keep then item.contentHash else obs.contentHash,
         obs.sourceKind, obs.raw, obs.normalized,
         MergedProcessing(item, obs),
         if Released(item) then false else item.isPrivate,
         item.createdAt)
  }

  /** btrim(s) = '': SQL trims spaces only. */
  predicate SqlBlank(s: string) { forall i :: 0 <= i < |s| ==> s[i] == ' ' }

  function HydratedItem(item: Item, obs: Observation, mark: Json): Item {
    var blank := SqlBlank(obs.bodyText);
    item.(summary := if SqlBlank(obs.summary) then item.summary else obs.summary,
          bodyText := if blank then item.bodyText else obs.bodyText,
          bodyHtml := if blank then item.bodyHtml else obs.bodyHtml,
          bodyMarkdown := if blank then item.bodyMarkdown else obs.bodyMarkdown,
          publishedAt := if item.publishedAt.Some? then item.publishedAt else obs.publishedAt,
          fetchedAt := obs.fetchedAt,
          contentHash := if blank then item.contentHash else obs.contentHash,
          processing := item.processing + obs.processing + map[CONTENT_CRAWL := mark])
  }

  function Quarantined(item: Item, record: Json): Item {
    item.(isPrivate := true, processing := item.processing[QUARANTINE := record])
  }

  // ----- Events

  datatype Event =
    | Insert(src: SourceId, obs: Observation, raw: RawId, at: Time, id: ItemId)
    | Merge(src: SourceId, obs: Observation, raw: RawId, id: ItemId)
    | Hydrate(id: ItemId, obs: Observation, mark: Json)
    | Quarantine(id: ItemId, record: Json)
    | Retire(src: SourceId, record: Json)

  predicate Enabled(items: Table, e: Event) {
    match e
    case Insert(src, obs, _, _, id) => id !in items && !Conflict(items, src, obs)
    case Merge(src, obs, _, id) => Conflict(items, src, obs) && BestMatch(items, src, obs, id)
    case Hydrate(id, _, _) => id in items && !items[id].isPrivate
    case Quarantine(id, record) => id in items && !items[id].isPrivate && record.JObj?
    case Retire(_, record) => record.JObj?
  }

  function Apply(items: Table, e: Event): Table {
    match e
    case Insert(src, obs, raw, at, id) => items[id := NewItem(src, obs, raw, at)]
    case Merge(src, obs, raw, id) => if id in items then items[id := Merged(items, id, obs, raw)] else items
    case Hydrate(id, obs, mark) => if id in items then items[id := HydratedItem(items[id], obs, mark)] else items
    case Quarantine(id, record) => if id in items then items[id := Quarantined(items[id], record)] else items
    case Retire(src, record) =>
      map k | k in items ::
        if items[k].source == src && !items[k].isPrivate then Quarantined(items[k], record) else items[k]
  }

  // ----- The code

  datatype FeedError = ConflictNotIdentified(src: SourceId) | UniqueViolation | NotFound(id: ItemId)
      | BlankReasonOrPolicy

  datatype ArtifactFailure = ArtifactFailure(url: string, reason: string, retryable: bool)

  datatype QualityQuarantine = QualityQuarantine(id: ItemId, reason: string, policy: string, reversible: bool,
                                                 metadata: Json)

  /** Collecting into a BTreeMap: the last reason given for a URL stays. */
  function ArtifactCandidates(failures: seq<ArtifactFailure>): map<string, string> {
    if failures == [] then map[] else
      var before, last := ArtifactCandidates(failures[..|failures| - 1]), failures[|failures| - 1];
      if !last.retryable && RuntimeQuarantineReason(last.reason) then before[last.url := last.reason] else before
  }

  /** An artifact's URL names an item through any of its three addresses. */
  predicate NamesItem(url: string, item: Item) {
    SameIdentity(item.canonicalUrl, url) || SameIdentity(item.url, url) || SameIdentity(item.externalId, url)
  }

  predicate ArtifactHit(item: Item, src: SourceId, candidates: map<string, string>) {
    item.source == src && !item.isPrivate && exists url :: url in candidates && NamesItem(url, item)
  }

  function TimeJson(t: Option<Time>): Json { if t.Some? then JNumber(t.value) else JNull }

  /** The record of a run-time quarantine; `base` names the recipe, its run and the time. */
  function ArtifactRecord(item: Item, url: string, reason: string, base: Metadata): (r: Json)
    ensures r.JObj?
  {
    QuarantineRecord(reason, RuntimePolicy(reason), true,
                     base["original_published_at" := TimeJson(item.publishedAt)]["trigger_url" := JStr(url)])
  }

  function QualityRecord(item: Item, q: QualityQuarantine, now: Time): (r: Json)
    ensures r.JObj?
  {
    QuarantineRecord(q.reason, q.policy, q.reversible,
                     map["original_published_at" := TimeJson(item.publishedAt), "metadata" := q.metadata,
                         "quarantined_at" := JNumber(now)])
  }

  /** DISTINCT ON (item.id) ... ORDER BY item.id, candidate.url keeps the first of the URLs that name an item. */
  predicate IsTrigger(url: string, item: Item, candidates: map<string, string>) {
    && url in candidates && NamesItem(url, item)
    && forall other :: other in candidates && NamesItem(other, item) ==> !StringLess(other, url)
  }

  ghost predicate ArtifactCause(item: Item, record: Json, candidates: map<string, string>, base: Metadata) {
    exists url :: IsTrigger(url, item, candidates) && record == ArtifactRecord(item, url, candidates[url], base)
  }

  method FindTrigger(item: Item, candidates: map<string, string>) returns (trigger: string)
    requires exists url :: url in candidates && NamesItem(url, item)
    ensures IsTrigger(trigger, item, candidates)
  {
    hide IdentityKey, NamesItem, StringLess;
    trigger :| trigger in candidates && NamesItem(trigger, item);
    StringOrder(trigger, trigger);
    var todo := candidates.Keys - {trigger};
    while todo != {}
      invariant todo <= candidates.Keys && trigger in candidates && NamesItem(trigger, item)
      invariant forall other :: other in candidates && other !in todo && NamesItem(other, item) ==>
          !StringLess(other, trigger)
      decreases |todo|
    {
      var url :| url in todo;
      todo := todo - {url};
      if NamesItem(url, item) && StringLess(url, trigger) {
        forall other | other in candidates && other !in todo && NamesItem(other, item)
          ensures !StringLess(other, url)
        {
          StringOrder(url, other);
          if StringLess(other, url) {
            StringTransitive(other, url, trigger);
          }
        }
        trigger := url;
      }
    }
  }

  method RecordArtifact(item: Item, candidates: map<string, string>, base: Metadata) returns (record: Json)
    requires exists url :: url in candidates && NamesItem(url, item)
    ensures record.JObj? && ArtifactCause(item, record, candidates, base)
  {
    hide IdentityKey, NamesItem, StringLess;
    var url := FindTrigger(item, candidates);
    record := ArtifactRecord(item, url, candidates[url], base);
  }

  class FeedStore {
    var items: Table

    constructor ()
      ensures items == map[]
    {
      items := map[];
    }

    /** The row the lookup returns; rows that tie in the ORDER BY are left to the database. */
    method FindExisting(src: SourceId, obs: Observation) returns (r: Option<ItemId>)
      ensures r.Some? ==> BestMatch(items, src, obs, r.value)
      ensures r.None? ==> forall k :: k in items ==> !Matches(items[k], src, obs)
    {
      r := None;
      var todo := items.Keys;
      while todo != {}
        invariant todo <= items.Keys
        invariant r.None? ==> forall k :: k in items && k !in todo ==> !Matches(items[k], src, obs)
        invariant r.Some? ==> r.value in items && Matches(items[r.value], src, obs)
        invariant r.Some? ==> forall k :: k in items && k !in todo && Matches(items[k], src, obs) ==>
                                            !Preferred(items[k], items[r.value], obs)
        decreases |todo|
      {
        var k :| k in todo;
        if Matches(items[k], src, obs) && (r.None? || Preferred(items[k], items[r.value], obs)) {
          r := Some(k);
        }
        todo := todo - {k};
      }
    }

    /** One item of a crawl: insert it, or merge it into the row that owns its identity. */
    method Upsert(src: SourceId, obs: Observation, raw: RawId, newId: ItemId, at: Time)
      returns (r: Result<(ItemId, bool), FeedError>)
      requires newId !in items && KeysUnique(items)
      modifies this
      ensures r.Ok? && KeysUnique(items)
      ensures var (id, inserted) := r.value;
              var e := if inserted then Insert(src, obs, raw, at, id) else Merge(src, obs, raw, id);
              Enabled(old(items), e) && items == Apply(old(items), e)
      ensures r.value.1 <==> !Conflict(old(items), src, obs)
      ensures r.value.0 == newId || (r.value.0 in old(items) && !r.value.1)
      ensures items.Keys == old(items).Keys + {r.value.0}
      ensures |items| == |old(items)| + if r.value.1 then 1 else 0
      ensures var item := items[r.value.0];
              && item.source == src && item.title == obs.title && item.url == obs.url && item.rawId == Some(raw)
              && item.publishedAt == obs.publishedAt && item.sourceKind == obs.sourceKind
              && item.normalized == obs.normalized
    {
      hide IdentityKey;
      if !Conflict(items, src, obs) {
        InsertKeepsKeys(items, src, obs, raw, at, newId);
        items := items[newId := NewItem(src, obs, raw, at)];
        return Ok((newId, true));
      }
      var existing := FindExisting(src, obs);
      if existing.None? {
        return Err(ConflictNotIdentified(src));
      }
      var id := existing.value;
      var updated := MergeRow(id, obs, raw);
      MergeKeepsKeys(items, src, obs, raw, id);
      var after := items[id := updated];
      if !KeysUnique(after) {
        return Err(UniqueViolation);
      }
      items := after;
      return Ok((id, false));
    }

    /** The row that the UPDATE of an existing item writes. */
    method MergeRow(id: ItemId, obs: Observation, raw: RawId) returns (updated: Item)
      requires id in items
      ensures updated == Merged(items, id, obs, raw)
      ensures updated.title == obs.title && updated.url == obs.url && updated.publishedAt == obs.publishedAt
      ensures updated.source == items[id].source && updated.createdAt == items[id].createdAt
      ensures updated.rawId == Some(raw)
      ensures updated.sourceKind == obs.sourceKind && updated.raw == obs.raw && updated.normalized == obs.normalized
    {
      hide IdentityKey, ReleasableReason;
      var item := items[id];
      var preserve := CONTENT_CRAWL in item.processing;
      var release := item.isPrivate && ReleasableReason(item.processing).Some?;
      var processing := obs.processing;
      if preserve {
        processing := processing + map[CONTENT_CRAWL := item.processing[CONTENT_CRAWL]];
      }
      if item.isPrivate && !release && QUARANTINE in item.processing {
        processing := processing + map[QUARANTINE := item.processing[QUARANTINE]];
      }
      assert processing == MergedProcessing(item, obs);
      var externalId := obs.externalId;
      if ExternalTaken(items, id, item.source, obs.externalId) {
        externalId := item.externalId;
      }
      var canonicalUrl := obs.canonicalUrl;
      if CanonicalTaken(items, id, item.source, obs.canonicalUrl) {
        canonicalUrl := item.canonicalUrl;
      }
      var summary, bodyText, bodyHtml, bodyMarkdown := obs.summary, obs.bodyText, obs.bodyHtml, obs.bodyMarkdown;
      var fetchedAt, contentHash := obs.fetchedAt, obs.contentHash;
      if preserve {
        summary, bodyText, bodyHtml, bodyMarkdown := item.summary, item.bodyText, item.bodyHtml, item.bodyMarkdown;
        fetchedAt, contentHash := item.fetchedAt, item.contentHash;
      }
      updated := Item(item.source, Some(raw), externalId, obs.url, canonicalUrl, obs.title, summary, bodyText, bodyHtml,
                      bodyMarkdown, obs.publishedAt, fetchedAt, contentHash, obs.sourceKind, obs.raw, obs.normalized,
                      processing, item.isPrivate && !release, item.createdAt);
    }

    /** Stores a hydrated article, unless its item is gone or private. */
    method HydrateItem(id: ItemId, obs: Observation, mark: Json) returns (r: Result<(), FeedError>)
      modifies this
      ensures r.Ok? <==> id in old(items) && !old(items)[id].isPrivate
      ensures r.Ok? ==> Enabled(old(items), Hydrate(id, obs, mark))
      ensures r.Ok? ==> items == Apply(old(items), Hydrate(id, obs, mark))
      ensures r.Err? ==> r.error == NotFound(id) && items == old(items)
    {
      if id !in items || items[id].isPrivate {
        return Err(NotFound(id));
      }
      var item := items[id];
      if !SqlBlank(obs.summary) {
        item := item.(summary := obs.summary);
      }
      if !SqlBlank(obs.bodyText) {
        item := item.(bodyText := obs.bodyText, bodyHtml := obs.bodyHtml, bodyMarkdown := obs.bodyMarkdown,
                      contentHash := obs.contentHash);
      }
      if item.publishedAt.None? {
        item := item.(publishedAt := obs.publishedAt);
      }
      item := item.(fetchedAt := obs.fetchedAt,
                    processing := item.processing + obs.processing + map[CONTENT_CRAWL := mark]);
      items := items[id := item];
      return Ok(());
    }

    /** The query for the public items of a source that deterministic recipe failures point at. */
    method MatchArtifacts(src: SourceId, candidates: map<string, string>, base: Metadata)
        returns (records: map<ItemId, Json>)
      ensures records.Keys == set k | k in items && ArtifactHit(items[k], src, candidates)
      ensures forall k :: k in records ==> records[k].JObj? && ArtifactCause(items[k], records[k], candidates, base)
    {
      hide IdentityKey, NamesItem, IsTrigger, ArtifactCause;
      records := map[];
      var matched := set k | k in items && ArtifactHit(items[k], src, candidates);
      var todo := matched;
      while todo != {}
        invariant todo <= matched && records.Keys == matched - todo
        invariant forall k :: k in records ==> records[k].JObj? && ArtifactCause(items[k], records[k], candidates, base)
        decreases |todo|
      {
        var k :| k in todo;
        todo := todo - {k};
        assert ArtifactHit(items[k], src, candidates);
        var record := RecordArtifact(items[k], candidates, base);
        records := records[k := record];
      }
    }

    /** The records for the listed items, of which the first entry for an item counts. */
    method ListedRecords(quarantines: seq<QualityQuarantine>, now: Time)
        returns (r: Result<map<ItemId, Json>, FeedError>)
      ensures r.Err? <==> !AllNamed(quarantines)
      ensures r.Err? ==> r.error == BlankReasonOrPolicy
      ensures r.Ok? ==> r.value == QualityRecords(items, FirstEntries(quarantines), now)
    {
      hide Named;
      var candidates: map<ItemId, QualityQuarantine> := map[];
      for i := 0 to |quarantines|
        invariant candidates == FirstEntries(quarantines[..i])
        invariant forall j :: 0 <= j < i ==> Named(quarantines[j])
      {
        var q := quarantines[i];
        if !Named(q) {
          return Err(BlankReasonOrPolicy);
        }
        FirstEntriesExtend(quarantines, i);
        if q.id !in candidates {
          candidates := candidates[q.id := q];
        }
      }
      assert quarantines[..|quarantines|] == quarantines;
      return Ok(QualityRecords(items, candidates, now));
    }

    /** UPDATE feed_items ... WHERE id = id AND NOT is_private. */
    method QuarantineItem(id: ItemId, record: Json) returns (updated: bool)
      requires record.JObj?
      modifies this
      ensures updated <==> id in old(items) && !old(items)[id].isPrivate
      ensures updated ==> Enabled(old(items), Quarantine(id, record))
      ensures items == if updated then Apply(old(items), Quarantine(id, record)) else old(items)
    {
      updated := id in items && !items[id].isPrivate;
      if updated {
        var item := items[id];
        items := items[id := item.(isPrivate := true, processing := item.processing[QUARANTINE := record])];
      }
    }

    /** Retiring a source for ownership hides everything it still shows. */
    method RetireItems(src: SourceId, record: Json)
      requires record.JObj?
      modifies this
      ensures Enabled(old(items), Retire(src, record)) && items == Apply(old(items), Retire(src, record))
    {
      items := map k | k in items ::
        if items[k].source == src && !items[k].isPrivate
        then items[k].(isPrivate := true, processing := items[k].processing[QUARANTINE := record])
        else items[k];
    }
  }

  /** entry(id).or_insert: the first entry for an item stays. */
  function FirstEntries(quarantines: seq<QualityQuarantine>): map<ItemId, QualityQuarantine> {
    if quarantines == [] then map[] else
      var before, last := FirstEntries(quarantines[..|quarantines| - 1]), quarantines[|quarantines| - 1];
      if last.id in before then before else before[last.id := last]
  }

  lemma FirstEntriesExtend(quarantines: seq<QualityQuarantine>, i: nat)
    requires i < |quarantines|
    ensures var before, q := FirstEntries(quarantines[..i]), quarantines[i];
            FirstEntries(quarantines[..i + 1]) == if q.id in before then before else before[q.id := q]
  {
    assert quarantines[..i + 1][..i] == quarantines[..i];
  }

  predicate AllNamed(quarantines: seq<QualityQuarantine>) {
    forall i :: 0 <= i < |quarantines| ==> Named(quarantines[i])
  }

  predicate Named(q: QualityQuarantine) { Trim(q.reason) != "" && Trim(q.policy) != "" }

  function QualityRecords(items: Table, entries: map<ItemId, QualityQuarantine>, now: Time): (r: map<ItemId, Json>)
    ensures forall k :: k in r ==> r[k].JObj?
  {
    map k | k in entries && k in items :: QualityRecord(items[k], entries[k], now)
  }

  function HideAll(items: Table, hits: set<ItemId>, records: map<ItemId, Json>): Table
    requires hits <= records.Keys
  {
    map k | k in items :: if k in hits then Quarantined(items[k], records[k]) else items[k]
  }

  // ----- The keys stay unique

  lemma InsertKeepsKeys(items: Table, src: SourceId, obs: Observation, raw: RawId, at: Time, id: ItemId)
    requires KeysUnique(items) && id !in items && !Conflict(items, src, obs)
    ensures KeysUnique(items[id := NewItem(src, obs, raw, at)])
  {
    forall k | k in items
      ensures !Collide(items[k], NewItem(src, obs, raw, at)) && !Collide(NewItem(src, obs, raw, at), items[k])
    {
    }
  }

  lemma MergeKeepsKeys(items: Table, src: SourceId, obs: Observation, raw: RawId, id: ItemId)
    requires KeysUnique(items) && BestMatch(items, src, obs, id)
    ensures KeysUnique(items[id := Merged(items, id, obs, raw)])
  {
    var merged := Merged(items, id, obs, raw);
    forall k | k in items && k != id
      ensures !Collide(items[k], merged) && !Collide(merged, items[k])
    {
      if items[k].source == src {
        assert !Collide(items[k], items[id]);
        // A row that owns the identity in public is preferred over every row that does not.
        assert Matches(items[k], src, obs) ==> !Preferred(items[k], items[id], obs);
      }
    }
  }
}
