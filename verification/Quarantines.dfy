/**
 Which quarantines may be lifted, what their records say, which items a failure names, and which
 row the lookup of an upsert finds.
 */
module Quarantines {
  import opened Common
  import opened UrlIdentity
  import opened FeedItems

  // ----- Policies

  /** A version number: digits, and at least one. */
  predicate Number(s: string) { s != [] && forall i :: 0 <= i < |s| ==> s[i] in "0123456789" }

  predicate Family(name: string) {
    name in {"recipe-listing-artifact.v", "recipe-content-diversity.v", "cross-company-item-scope.v"}
  }

  predicate VersionOf(policy: string, family: string, version: string) {
    Family(family) && Number(version) && policy == family + version
  }

  lemma FamiliesDiffer(policy: string, a: string, b: string)
    requires Family(a) && Family(b) && a <= policy && b <= policy
    ensures a == b
  {
    assert policy[0] == a[0] == b[0] && policy[7] == a[7] == b[7];
    assert "recipe-listing-artifact.v"[7] == 'l' && "recipe-content-diversity.v"[7] == 'c';
    assert "cross-company-item-scope.v"[0] == 'c';
  }

  lemma FixedHasNoFamily(policy: string, family: string)
    requires Fixed(policy) && Family(family)
    ensures !(family <= policy)
  {
    assert "recipe-runtime-artifact.v1"[7] == 'r' && "recipe-runtime-artifact.v1"[0] == 'r';
    assert "shared-direct-scope.v1"[0] == 's' && "shared-direct-scope.v2"[0] == 's';
    assert "recipe-listing-artifact.v"[7] == 'l' && "recipe-content-diversity.v"[7] == 'c';
    assert "recipe-listing-artifact.v"[0] == 'r' && "recipe-content-diversity.v"[0] == 'r';
    assert "cross-company-item-scope.v"[0] == 'c';
    assert policy[0] != family[0] || policy[7] != family[7];
  }

  lemma DigitsAre(s: string)
    ensures AllDigits(s) <==> forall i :: 0 <= i < |s| ==> s[i] in "0123456789"
  {
    forall c: char
      ensures c in "0123456789" <==> '0' <= c <= '9'
    {
      assert "0123456789" == ['0', '1', '2', '3', '4', '5', '6', '7', '8', '9'];
    }
  }

  lemma InFamily(policy: string, family: string)
    requires Family(family) && family <= policy
    ensures ReleasablePolicy(policy) <==> Number(policy[|family|..])
  {
    OtherFamilies(policy, family);
    DigitsAre(policy[|family|..]);
    hide AllDigits, Number;
    assert Number(policy[|family|..]) <==> policy[|family|..] != [] && AllDigits(policy[|family|..]) by {
      NumberIs(policy[|family|..]);
    }
    assert Family("recipe-listing-artifact.v") && Family("recipe-content-diversity.v");
  }

  lemma NumberIs(s: string)
    ensures Number(s) <==> s != [] && AllDigits(s)
  {
    DigitsAre(s);
  }

  lemma NoFamily(policy: string)
    requires forall family :: Family(family) ==> !(family <= policy)
    ensures ReleasablePolicy(policy) <==> Fixed(policy)
  {
    assert Family("recipe-listing-artifact.v") && Family("recipe-content-diversity.v");
    assert Family("cross-company-item-scope.v");
  }

  predicate Fixed(policy: string) {
    policy in {"recipe-runtime-artifact.v1", "shared-direct-scope.v1", "shared-direct-scope.v2"}
  }

  /** A policy allows release exactly if it is any version of three of them, or one of three others. */
  lemma ReleasesExactlyWhen(policy: string)
    ensures ReleasablePolicy(policy) <==> Fixed(policy) || exists family, version :: VersionOf(policy, family, version)
  {
    hide ReleasablePolicy, Family, Number;
    if family :| Family(family) && family <= policy {
      InFamily(policy, family);
      assert policy == family + policy[|family|..];
      if Fixed(policy) { FixedHasNoFamily(policy, family); }
      if f, v :| VersionOf(policy, f, v) {
        assert f <= policy && policy[|f|..] == v;
        FamiliesDiffer(policy, f, family);
      }
      if Number(policy[|family|..]) {
        assert VersionOf(policy, family, policy[|family|..]);
      }
    } else {
      NoFamily(policy);
      assert forall f, v :: VersionOf(policy, f, v) ==> f <= policy;
    }
  }

  lemma OtherFamilies(policy: string, family: string)
    requires Family(family) && family <= policy
    ensures forall other :: Family(other) && other <= policy ==> other == family
  {
    forall other | Family(other) && other <= policy
      ensures other == family
    {
      FamiliesDiffer(policy, other, family);
    }
  }

  predicate Says(record: Json, name: string, text: string) {
    record.JObj? && name in record.fields && record.fields[name] == JStr(text)
  }

  /** A merge releases an item exactly if its record names a policy that allows it, and a reason. */
  lemma ReleasedExactlyWhen(item: Item)
    ensures Released(item) <==>
            && item.isPrivate && "quality_quarantine" in item.processing
            && exists policy, reason ::
                 var record := item.processing["quality_quarantine"];
                 Says(record, "policy", policy) && Says(record, "reason", reason) && ReleasablePolicy(policy)
  {
    hide ReleasablePolicy;
    if Released(item) {
      var record := item.processing[QUARANTINE];
      assert Says(record, "policy", record.fields["policy"].text);
      assert Says(record, "reason", record.fields["reason"].text);
    }
  }

  /** The reasons for which a crawl quarantines an item at run time, and under which policy. */
  lemma RuntimeReasonsAre(reason: string)
    ensures RuntimeQuarantineReason(reason) <==>
            || reason in {"article_not_company_scoped", "cross_company_item_not_explicitly_scoped",
                          "article_outside_dominant_editorial_namespace", "article_outside_recipe_scope"}
            || reason in {"double_encoded_utf8_url_alias", "generic_listing_title", "high_link_density_collection"}
            || reason in {"multiple_article_collection", "obvious_listing_path", "year_archive_collection"}
    ensures RuntimePolicy(reason) ==
            if reason == "cross_company_item_not_explicitly_scoped" then "cross-company-item-scope.v1"
            else if reason == "article_not_company_scoped" then "company-scope-relevance.v4"
            else "recipe-runtime-artifact.v1"
  {
  }

  // ----- Records

  /**
   The fields of a record: state, reason, policy and whether it may be reversed, and under other names the details.
   */
  lemma RecordSays(reason: string, policy: string, reversible: bool, details: Metadata, name: string)
    ensures var record := QuarantineRecord(reason, policy, reversible, details);
            && record.JObj?
            && Says(record, "state", "quarantined") && Says(record, "reason", reason) && Says(record, "policy", policy)
            && "reversible" in record.fields && record.fields["reversible"] == JBool(reversible)
            && (name !in {"state", "reason", "policy", "reversible"} ==>
                  && (name in record.fields <==> name in details)
                  && (name in details ==> record.fields[name] == details[name]))
  {
    assert "policy"[0] == 'p' && "reason"[2] == 'a' && "reversible"[2] == 'v' && "state"[0] == 's';
  }

  /** The date is kept under its own name, as a number or null. */
  predicate KeepsDate(record: Json, item: Item) {
    && record.JObj? && "original_published_at" in record.fields
    && record.fields["original_published_at"] ==
       if item.publishedAt.Some? then JNumber(item.publishedAt.value) else JNull
  }

  /** A run-time record has the policy of its reason, can be reversed, and keeps the item's date and the URL. */
  lemma ArtifactRecordSays(item: Item, url: string, reason: string, base: Metadata)
    ensures var record := ArtifactRecord(item, url, reason, base);
            && Says(record, "reason", reason) && Says(record, "policy", RuntimePolicy(reason))
            && KeepsDate(record, item) && Says(record, "trigger_url", url)
            && "reversible" in record.fields && record.fields["reversible"] == JBool(true)
  {
    hide RuntimePolicy, QuarantineRecord;
    var details := base["original_published_at" := TimeJson(item.publishedAt)]["trigger_url" := JStr(url)];
    NamesDiffer();
    RecordSays(reason, RuntimePolicy(reason), true, details, "original_published_at");
    RecordSays(reason, RuntimePolicy(reason), true, details, "trigger_url");
  }

  /** A quality record has what its entry says, the item's date, and the time. */
  lemma QualityRecordSays(item: Item, q: QualityQuarantine, now: Time)
    ensures var record := QualityRecord(item, q, now);
            && Says(record, "reason", q.reason) && Says(record, "policy", q.policy) && KeepsDate(record, item)
            && "reversible" in record.fields && record.fields["reversible"] == JBool(q.reversible)
            && "metadata" in record.fields && record.fields["metadata"] == q.metadata
            && "quarantined_at" in record.fields && record.fields["quarantined_at"] == JNumber(now)
  {
    hide QuarantineRecord;
    var details := map["original_published_at" := TimeJson(item.publishedAt), "metadata" := q.metadata,
                       "quarantined_at" := JNumber(now)];
    NamesDiffer();
    RecordSays(q.reason, q.policy, q.reversible, details, "original_published_at");
    RecordSays(q.reason, q.policy, q.reversible, details, "metadata");
    RecordSays(q.reason, q.policy, q.reversible, details, "quarantined_at");
  }

  lemma NamesDiffer()
    ensures "original_published_at" !in {"state", "reason", "policy", "reversible", "trigger_url", "metadata"}
    ensures "trigger_url" !in {"state", "reason", "policy", "reversible"}
    ensures "metadata" !in {"state", "reason", "policy", "reversible", "quarantined_at"}
    ensures "quarantined_at" !in {"state", "reason", "policy", "reversible", "original_published_at"}
  {
    assert "original_published_at"[0] == 'o' && "trigger_url"[0] == 't' && "metadata"[0] == 'm';
    assert "quarantined_at"[0] == 'q' && "state"[0] == 's' && "reason"[0] == 'r' && "policy"[0] == 'p';
    assert "reversible"[0] == 'r';
  }

  // ----- Which items a failure names

  /** A final failure for a reason that calls for a quarantine. */
  predicate CallsFor(f: ArtifactFailure) { !f.retryable && RuntimeQuarantineReason(f.reason) }

  /** Failure i is the last one at this URL that calls for a quarantine. */
  predicate LastCall(failures: seq<ArtifactFailure>, url: string, i: int) {
    && 0 <= i < |failures| && failures[i].url == url && CallsFor(failures[i])
    && forall j :: i < j < |failures| && failures[j].url == url ==> !CallsFor(failures[j])
  }

  lemma LastCallStep(failures: seq<ArtifactFailure>, url: string, i: int)
    requires failures != []
    ensures var n := |failures| - 1;
            LastCall(failures, url, i) <==>
            if failures[n].url == url && CallsFor(failures[n]) then i == n else LastCall(failures[..n], url, i)
  {
    hide CallsFor;
  }

  /** The last failure at a URL that calls for one decides on the reason. */
  lemma {:induction false} CandidatesAre(failures: seq<ArtifactFailure>, url: string)
    ensures url in ArtifactCandidates(failures) <==> exists i :: LastCall(failures, url, i)
    ensures forall i :: LastCall(failures, url, i) ==>
              url in ArtifactCandidates(failures) && ArtifactCandidates(failures)[url] == failures[i].reason
  {
    hide RuntimeQuarantineReason, LastCall;
    if failures == [] {
      NoCall(url);
    } else {
      CandidatesAre(failures[..|failures| - 1], url);
      forall i
        ensures var n := |failures| - 1;
                LastCall(failures, url, i) <==>
                if failures[n].url == url && CallsFor(failures[n]) then i == n else LastCall(failures[..n], url, i)
        ensures LastCall(failures[..|failures| - 1], url, i) ==> 0 <= i < |failures| - 1
      {
        LastCallStep(failures, url, i);
        CallInRange(failures[..|failures| - 1], url, i);
      }
      var n := |failures| - 1;
      assert LastCall(failures, url, n) <==> failures[n].url == url && CallsFor(failures[n]);
      if url in ArtifactCandidates(failures) && !LastCall(failures, url, n) {
        var i :| LastCall(failures[..n], url, i);
        assert LastCall(failures, url, i);
      }
    }
  }

  lemma NoCall(url: string)
    ensures forall i :: !LastCall([], url, i)
  {
  }

  lemma CallInRange(failures: seq<ArtifactFailure>, url: string, i: int)
    ensures LastCall(failures, url, i) ==> 0 <= i < |failures| && failures[i].url == url && CallsFor(failures[i])
  {
  }

  /** A URL with a call has a last one. */
  lemma {:induction false} SomeLastCall(failures: seq<ArtifactFailure>, i: nat) returns (last: nat)
    requires i < |failures| && CallsFor(failures[i])
    ensures LastCall(failures, failures[i].url, last)
    decreases |failures| - i
  {
    last := i;
    if j :| i < j < |failures| && failures[j].url == failures[i].url && CallsFor(failures[j]) {
      last := SomeLastCall(failures, j);
    }
  }

  /** The address of a failure, as far as it counts. */
  predicate AddressOf(item: Item, url: string) {
    var key := IdentityKey(url);
    IdentityKey(item.canonicalUrl) == key || IdentityKey(item.url) == key || IdentityKey(item.externalId) == key
  }

  /**
   An item is hit exactly if it is public, of the source, and a failure that calls for a quarantine has its address.
   */
  lemma HitExactlyWhen(item: Item, src: SourceId, failures: seq<ArtifactFailure>)
    ensures ArtifactHit(item, src, ArtifactCandidates(failures)) <==>
            && item.source == src && !item.isPrivate
            && exists i :: 0 <= i < |failures| && CallsFor(failures[i]) && AddressOf(item, failures[i].url)
  {
    hide IdentityKey, CallsFor, ArtifactCandidates, LastCall;
    var candidates := ArtifactCandidates(failures);
    assert forall url :: NamesItem(url, item) <==> AddressOf(item, url);
    if url :| url in candidates && NamesItem(url, item) {
      CandidatesAre(failures, url);
      var i :| LastCall(failures, url, i);
      CallInRange(failures, url, i);
    }
    if i :| 0 <= i < |failures| && CallsFor(failures[i]) && AddressOf(item, failures[i].url) {
      var last := SomeLastCall(failures, i);
      CandidatesAre(failures, failures[i].url);
    }
  }

  /** Of the URLs that name an item the record has the least, letter by letter. */
  lemma {:induction false} LessAtFirstDifference(a: string, b: string)
    ensures StringLess(a, b) <==>
            exists k :: 0 <= k <= |a| && k < |b| && a[..k] == b[..k] && (k == |a| || a[k] < b[k])
  {
    if b != [] && a != [] && a[0] == b[0] {
      LessAtFirstDifference(a[1..], b[1..]);
      var r, s := a[1..], b[1..];
      if k :| 0 <= k <= |r| && k < |s| && r[..k] == s[..k] && (k == |r| || r[k] < s[k]) {
        assert a[..k + 1] == [a[0]] + r[..k] && b[..k + 1] == [b[0]] + s[..k];
        assert 0 <= k + 1 <= |a| && k + 1 < |b|;
      }
      if k :| 0 <= k <= |a| && k < |b| && a[..k] == b[..k] && (k == |a| || a[k] < b[k]) {
        assert k > 0;
        assert r[..k - 1] == a[..k][1..] && s[..k - 1] == b[..k][1..];
      }
    } else if b != [] {
      assert a[..0] == b[..0];
      if k :| 0 <= k <= |a| && k < |b| && a[..k] == b[..k] && (k == |a| || a[k] < b[k]) {
        if k > 0 { assert a[..k][0] == b[..k][0]; }
      }
    }
  }

  /** The record of a hit item: from the least of the URLs with its address, with the reason of that URL. */
  lemma CauseSays(item: Item, record: Json, candidates: map<string, string>, base: Metadata)
    requires ArtifactCause(item, record, candidates, base)
    ensures exists url :: url in candidates && AddressOf(item, url)
                          && (forall other :: other in candidates && AddressOf(item, other) ==> !StringLess(other, url))
                          && Says(record, "trigger_url", url) && Says(record, "reason", candidates[url])
  {
    hide IdentityKey, StringLess, ArtifactRecord;
    var url :| IsTrigger(url, item, candidates) && record == ArtifactRecord(item, url, candidates[url], base);
    ArtifactRecordSays(item, url, candidates[url], base);
    assert forall other :: NamesItem(other, item) <==> AddressOf(item, other);
  }

  /** A list of entries is rejected exactly if one of them has a blank reason or policy. */
  lemma NamedExactlyWhen(quarantines: seq<QualityQuarantine>)
    ensures AllNamed(quarantines) <==> forall q :: q in quarantines ==> Trim(q.reason) != [] && Trim(q.policy) != []
  {
    hide Trim;
    assert forall i :: 0 <= i < |quarantines| ==> quarantines[i] in quarantines;
  }

  /** The first entry for an item counts. */
  lemma {:induction false} EntriesAreTheFirst(quarantines: seq<QualityQuarantine>, id: ItemId)
    ensures id in FirstEntries(quarantines) <==> exists i :: 0 <= i < |quarantines| && quarantines[i].id == id
    ensures id in FirstEntries(quarantines) ==>
              exists i :: 0 <= i < |quarantines| && quarantines[i].id == id
                          && FirstEntries(quarantines)[id] == quarantines[i]
                          && forall j :: 0 <= j < i ==> quarantines[j].id != id
  {
    if quarantines != [] {
      var front, n := quarantines[..|quarantines| - 1], |quarantines| - 1;
      EntriesAreTheFirst(front, id);
      assert forall i :: 0 <= i < n ==> front[i] == quarantines[i];
    }
  }

  // ----- Which row a lookup finds

  predicate Shares(item: Item, src: SourceId, obs: Observation) {
    && item.source == src
    && (|| item.externalId == obs.externalId || item.canonicalUrl == obs.canonicalUrl
        || IdentityKey(item.url) == IdentityKey(obs.url))
  }

  predicate Shows(item: Item, obs: Observation) { !item.isPrivate && IdentityKey(item.url) == IdentityKey(obs.url) }

  /**
   The row found shares a key with the observation, and no other such row comes before it: a public row at its address
   first, then one with its canonical URL, then one with its external id, then the oldest.
   */
  lemma LookupPrefers(items: Table, src: SourceId, obs: Observation, id: ItemId, k: ItemId)
    requires BestMatch(items, src, obs, id)
    ensures id in items && Shares(items[id], src, obs)
    ensures k in items && Shares(items[k], src, obs) ==>
              var a, b := items[id], items[k];
              if Shows(a, obs) != Shows(b, obs) then Shows(a, obs)
              else if (a.canonicalUrl == obs.canonicalUrl) != (b.canonicalUrl == obs.canonicalUrl) then
                a.canonicalUrl == obs.canonicalUrl
              else if (a.externalId == obs.externalId) != (b.externalId == obs.externalId) then
                a.externalId == obs.externalId
              else a.createdAt <= b.createdAt
  {
    hide IdentityKey;
  }

  /**
   An observation is inserted exactly if no row of its source shares its external id, canonical URL or shown address.
   */
  lemma InsertsExactlyWhen(items: Table, src: SourceId, obs: Observation)
    ensures Conflict(items, src, obs) <==>
            exists k :: k in items && items[k].source == src &&
              (|| items[k].externalId == obs.externalId || items[k].canonicalUrl == obs.canonicalUrl
               || Shows(items[k], obs))
  {
    hide IdentityKey;
  }

  /** A merge takes over the external id and the canonical URL of the observation unless another row has them. */
  lemma MergeTakesKeys(items: Table, id: ItemId, obs: Observation, raw: RawId)
    requires id in items
    ensures var before, after := items[id], Merged(items, id, obs, raw);
            && after.externalId ==
               (if exists k :: k in items && k != id && items[k].source == before.source &&
                               items[k].externalId == obs.externalId
                then before.externalId else obs.externalId)
            && after.canonicalUrl ==
               (if exists k :: k in items && k != id && items[k].source == before.source &&
                               items[k].canonicalUrl == obs.canonicalUrl
                then before.canonicalUrl else obs.canonicalUrl)
  {
    hide IdentityKey, ReleasableReason, MergedProcessing, Released;
  }

  /** The unique indexes: rows of one source differ in external id, canonical URL and, where both are shown, address. */
  lemma UniqueExactlyWhen(items: Table)
    ensures KeysUnique(items) <==>
            forall a, b :: a in items && b in items && a != b && items[a].source == items[b].source ==>
              && items[a].externalId != items[b].externalId && items[a].canonicalUrl != items[b].canonicalUrl
              && (items[a].isPrivate || items[b].isPrivate || IdentityKey(items[a].url) != IdentityKey(items[b].url))
  {
    hide IdentityKey;
    forall a, b | a in items && b in items
      ensures Collide(items[a], items[b]) <==>
              && items[a].source == items[b].source
              && !(&& items[a].externalId != items[b].externalId && items[a].canonicalUrl != items[b].canonicalUrl
                   && (items[a].isPrivate || items[b].isPrivate
                       || IdentityKey(items[a].url) != IdentityKey(items[b].url)))
    {
    }
  }

  /** A text is blank to SQL exactly if it has nothing but spaces. */
  lemma BlankExactlyWhen(s: string)
    ensures SqlBlank(s) <==> forall c :: c in s ==> c == ' '
  {
    assert forall i :: 0 <= i < |s| ==> s[i] in s;
  }
}
