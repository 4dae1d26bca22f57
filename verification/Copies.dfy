/** Which of several copies of an item is shown, without ranks: an item is shown unless a better copy of it is. */
module Copies {
  import opened Common
  import opened UrlIdentity
  import opened Ranking
  import opened Projections

  // ----- A first row is one that no other row of its partition comes before

  lemma FirstExactlyWhen<K>(ids: set<Id>, part: map<Id, K>, order: SortKeys, a: Id)
    requires ids <= part.Keys && Decides(order, ids) && a in ids
    ensures a in Firsts(ids, part, order) <==>
            forall k :: k in ids && k != a && part[k] == part[a] ==> Less(order[a], order[k])
  {
    LessIsIrreflexive(order[a]);
    forall k | k in ids && k != a
      ensures Less(order[a], order[k]) <==> !Less(order[k], order[a])
    {
      LessIsTotal(order[a], order[k]);
      if Less(order[a], order[k]) && Less(order[k], order[a]) { LessIsTransitive(order[a], order[k], order[a]); }
    }
    var before := Preceding(ids, part, order, a);
    if k :| k in ids && k != a && part[k] == part[a] && !Less(order[a], order[k]) {
      assert k in before;
    } else {
      assert before == {};
    }
  }

  // ----- When one copy is better than another

  /** Feeds before pages: RSS, Atom, HTML, anything else. */
  predicate Ahead(a: Kind, b: Kind) {
    match a
    case Rss => b != Rss
    case Atom => b != Rss && b != Atom
    case Html => b == Browser || b == OtherKind
    case _ => false
  }

  predicate Level(a: Kind, b: Kind) { !Ahead(a, b) && !Ahead(b, a) }

  /** The better kind, else the later fetch, else the smaller id. */
  predicate BetterCopy(cat: Catalog, ka: Kind, kb: Kind, a: Id, b: Id)
    requires a in cat.rows && b in cat.rows
  {
    || Ahead(ka, kb)
    || (Level(ka, kb) && cat.rows[a].fetchedAt > cat.rows[b].fetchedAt)
    || (Level(ka, kb) && cat.rows[a].fetchedAt == cat.rows[b].fetchedAt && a < b)
  }

  predicate BetterSource(cat: Catalog, a: Id, b: Id)
    requires a in Joined(cat) && b in Joined(cat)
  {
    BetterCopy(cat, cat.sources[cat.rows[a].source].kind, cat.sources[cat.rows[b].source].kind, a, b)
  }

  predicate BetterKind(cat: Catalog, a: Id, b: Id)
    requires a in Joined(cat) && b in Joined(cat)
  {
    BetterCopy(cat, cat.rows[a].kind, cat.rows[b].kind, a, b)
  }

  lemma FirstKey(a: int, s: seq<int>, x: int, t: seq<int>)
    ensures Less([a] + s, [x] + t) <==> a < x || (a == x && Less(s, t))
  {
    assert ([a] + s)[1..] == s && ([x] + t)[1..] == t;
  }

  lemma TwoKeys(a: int, b: int, x: int, y: int)
    ensures Less([a, b], [x, y]) <==> a < x || (a == x && b < y)
  {
    var none: seq<int> := [];
    assert !Less(none, none);
    hide Less;
    assert [a, b] == [a] + [b] && [x, y] == [x] + [y] && [b] == [b] + none && [y] == [y] + none;
    FirstKey(a, [b], x, [y]);
    FirstKey(b, none, y, none);
  }

  lemma ThreeKeys(a: int, b: int, c: int, x: int, y: int, z: int)
    ensures Less([a, b, c], [x, y, z]) <==> a < x || (a == x && (b < y || (b == y && c < z)))
  {
    hide Less;
    assert [a, b, c] == [a] + [b, c] && [x, y, z] == [x] + [y, z];
    FirstKey(a, [b, c], x, [y, z]);
    TwoKeys(b, c, y, z);
  }

  lemma MoreKeys(a: int, b: int, s: seq<int>, x: int, y: int, t: seq<int>)
    ensures Less([a, b] + s, [x, y] + t) <==> a < x || (a == x && (b < y || (b == y && Less(s, t))))
  {
    hide Less;
    assert [a, b] + s == [a] + ([b] + s) && [x, y] + t == [x] + ([y] + t);
    FirstKey(a, [b] + s, x, [y] + t);
    FirstKey(b, s, y, t);
  }

  lemma SourceOrder(cat: Catalog, a: Id, b: Id)
    requires a in Joined(cat) && b in Joined(cat)
    ensures Less(BySource(cat)[a], BySource(cat)[b]) <==> BetterSource(cat, a, b)
  {
    hide Less;
    ThreeKeys(KindRank(cat.sources[cat.rows[a].source].kind), -cat.rows[a].fetchedAt, a,
              KindRank(cat.sources[cat.rows[b].source].kind), -cat.rows[b].fetchedAt, b);
  }

  lemma KindOrder(cat: Catalog, a: Id, b: Id)
    requires a in Joined(cat) && b in Joined(cat)
    ensures Less(ByKind(cat)[a], ByKind(cat)[b]) <==> BetterKind(cat, a, b)
  {
    hide Less;
    ThreeKeys(KindRank(cat.rows[a].kind), -cat.rows[a].fetchedAt, a,
              KindRank(cat.rows[b].kind), -cat.rows[b].fetchedAt, b);
  }

  // ----- When two items are copies of one another

  predicate SameAddress(a: Row, b: Row) {
    a.company == b.company && IdentityKey(a.canonicalUrl) == IdentityKey(b.canonicalUrl)
  }

  /** Undated at one address, or dated to one day under titles that differ in case and spacing at most. */
  predicate SameStory(a: Row, b: Row) {
    && a.company == b.company
    && if a.publishedAt.None? || b.publishedAt.None?
       then a.publishedAt == b.publishedAt && IdentityKey(a.canonicalUrl) == IdentityKey(b.canonicalUrl)
       else && a.publishedAt.value / 86_400_000_000 == b.publishedAt.value / 86_400_000_000
            && TitleKey(a.title) == TitleKey(b.title)
  }

  // ----- The list

  /** An item that the filter is about and that may be shown. */
  predicate Visible(cat: Catalog, f: Filter, id: Id) {
    && id in cat.rows && cat.rows[id].company in cat.companies && cat.rows[id].source in cat.sources
    && var row, source := cat.rows[id], cat.sources[cat.rows[id].source];
       && !row.isPrivate && source.approved && (source.kind == Rss || source.kind == Atom || source.recipe)
       && (f.company == None || f.company == Some(row.company)) && (f.source == None || f.source == Some(row.source))
       && (f.kind == None || f.kind == Some(row.kind))
       && (f.includeFuture || row.publishedAt == None || row.publishedAt.value <= cat.now)
       && (f.search == None
           || Contains(cat.companies[row.company].name, f.search.value) || Contains(row.title, f.search.value)
           || Contains(row.summary, f.search.value))
  }

  lemma VisibleIsEligible(cat: Catalog, f: Filter, id: Id)
    ensures Visible(cat, f, id) <==> id in Eligible(cat, f)
    ensures Visible(cat, f, id) ==> id in Joined(cat)
  {
    hide Contains;
  }

  /** The best of the visible copies at its address. */
  ghost predicate BestAtAddress(cat: Catalog, f: Filter, id: Id) {
    && Visible(cat, f, id)
    && forall k :: k != id && Visible(cat, f, k) && SameAddress(cat.rows[k], cat.rows[id]) ==>
         id in Joined(cat) && k in Joined(cat) && BetterSource(cat, id, k)
  }

  /** Of those the best of its story. */
  ghost predicate BestOfStory(cat: Catalog, f: Filter, id: Id) {
    && BestAtAddress(cat, f, id)
    && forall k :: k != id && BestAtAddress(cat, f, k) && SameStory(cat.rows[k], cat.rows[id]) ==>
         id in Joined(cat) && k in Joined(cat) && BetterKind(cat, id, k)
  }

  lemma AddressWinners(cat: Catalog, f: Filter, id: Id)
    ensures id in OnePerUrl(cat, f) <==> BestAtAddress(cat, f, id)
  {
    hide Visible, BySource, BetterSource, IdentityKey, RowNumber, Less, Firsts, Eligible;
    VisibleIsEligible(cat, f, id);
    OrdersDecide(cat, Eligible(cat, f));
    if id in Eligible(cat, f) {
      FirstExactlyWhen(Eligible(cat, f), UrlPart(cat), BySource(cat), id);
      forall k | k in Eligible(cat, f) || Visible(cat, f, k)
        ensures k in Joined(cat) && k in Eligible(cat, f) && Visible(cat, f, k)
        ensures Less(BySource(cat)[id], BySource(cat)[k]) <==> BetterSource(cat, id, k)
        ensures UrlPart(cat)[k] == UrlPart(cat)[id] <==> SameAddress(cat.rows[k], cat.rows[id])
      {
        VisibleIsEligible(cat, f, k);
        SourceOrder(cat, id, k);
      }
    }
  }

  lemma StagesDecide(cat: Catalog, f: Filter)
    ensures OnePerUrl(cat, f) <= Joined(cat) && Decides(ByKind(cat), OnePerUrl(cat, f))
  {
    hide Firsts, ByKind, Admits;
    OrdersDecide(cat, OnePerUrl(cat, f));
  }

  lemma StoryWinners(cat: Catalog, f: Filter, id: Id)
    ensures id in OnePerStory(cat, f) <==> BestOfStory(cat, f, id)
  {
    hide Visible, ByKind, BetterKind, BetterSource, IdentityKey, TitleKey, RowNumber, Less, Firsts, Eligible,
         BestAtAddress, OnePerUrl;
    AddressWinners(cat, f, id);
    StagesDecide(cat, f);
    if id in OnePerUrl(cat, f) {
      FirstExactlyWhen(OnePerUrl(cat, f), StoryPart(cat), ByKind(cat), id);
      forall k | k in OnePerUrl(cat, f) || BestAtAddress(cat, f, k)
        ensures k in Joined(cat) && k in OnePerUrl(cat, f) && BestAtAddress(cat, f, k)
        ensures Less(ByKind(cat)[id], ByKind(cat)[k]) <==> BetterKind(cat, id, k)
        ensures StoryPart(cat)[k] == StoryPart(cat)[id] <==> SameStory(cat.rows[k], cat.rows[id])
      {
        AddressWinners(cat, f, k);
        KindOrder(cat, id, k);
      }
    }
  }

  /**
   The list holds exactly the visible items with no better visible copy at their address or, among those, of their
   story.
   */
  lemma ListedExactlyWhen(cat: Catalog, f: Filter, id: Id)
    ensures id in AllSummaries(cat, f) <==> BestOfStory(cat, f, id)
    ensures CountSummaries(cat, f) == |AllSummaries(cat, f)|
  {
    hide Visible, BestOfStory, OnePerStory, CountSummaries, ByRecency;
    StoryWinners(cat, f, id);
    CountIsTheLengthOfTheList(cat, f);
  }

  /** Each item is listed once, the newest first: by date, else by creation, then by creation and id. */
  lemma ListOrder(cat: Catalog, f: Filter, i: nat, j: nat)
    requires i < j < |AllSummaries(cat, f)|
    ensures var a, b := AllSummaries(cat, f)[i], AllSummaries(cat, f)[j];
            && a != b && a in cat.rows && b in cat.rows
            && var ra, rb := cat.rows[a], cat.rows[b];
               var ta := if ra.publishedAt.Some? then ra.publishedAt.value else ra.createdAt;
               var tb := if rb.publishedAt.Some? then rb.publishedAt.value else rb.createdAt;
               if ta != tb then ta > tb else if ra.createdAt != rb.createdAt then ra.createdAt > rb.createdAt else a < b
  {
    hide Eligible, UrlPart, StoryPart, BySource, ByKind, Firsts, Less;
    var list := AllSummaries(cat, f);
    var a, b := list[i], list[j];
    assert a in OnePerStory(cat, f) && b in OnePerStory(cat, f);
    ThreeKeys(-SortTime(cat.rows[a]), -cat.rows[a].createdAt, a, -SortTime(cat.rows[b]), -cat.rows[b].createdAt, b);
  }

  /** A page of the list, or an error for a negative limit or offset. */
  lemma PageOfTheList(cat: Catalog, f: Filter)
    ensures ListSummaries(cat, f).Ok? <==> f.limit >= 0 && f.offset >= 0
    ensures ListSummaries(cat, f).Ok? ==>
              var page, all := ListSummaries(cat, f).value, AllSummaries(cat, f);
              && |page| == (if f.offset >= |all| then 0
                            else if f.offset + f.limit > |all| then |all| - f.offset else f.limit)
              && forall i :: 0 <= i < |page| ==> page[i] == all[f.offset + i]
  {
    hide AllSummaries;
  }

  // ----- The export

  /** The archive prefers content that was crawled, then bodies of 200 characters or more. */
  predicate FullerRank(cat: Catalog, a: Id, b: Id)
    requires a in cat.rows && b in cat.rows
  {
    if a in cat.crawled then b !in cat.crawled
    else b !in cat.crawled && BodyChars(cat.rows[a]) >= 200 && BodyChars(cat.rows[b]) < 200
  }

  /** The fuller content, else the longer body. */
  predicate Fuller(cat: Catalog, a: Id, b: Id)
    requires a in cat.rows && b in cat.rows
  {
    || FullerRank(cat, a, b)
    || (!FullerRank(cat, b, a) && BodyChars(cat.rows[a]) > BodyChars(cat.rows[b]))
  }

  /** The rank for long bodies changes nothing, as the length of the body comes next in the order anyway. */
  lemma LongBodyRankIsRedundant(cat: Catalog, a: Id, b: Id)
    requires a in cat.rows && b in cat.rows
    ensures Fuller(cat, a, b) <==>
            if (a in cat.crawled) != (b in cat.crawled) then a in cat.crawled
            else BodyChars(cat.rows[a]) > BodyChars(cat.rows[b])
  {
    hide BodyChars;
    assert FullerRank(cat, a, b) <==> ContentRank(cat, a) < ContentRank(cat, b);
  }

  predicate AsFull(cat: Catalog, a: Id, b: Id)
    requires a in cat.rows && b in cat.rows
  {
    !Fuller(cat, a, b) && !Fuller(cat, b, a)
  }

  lemma ContentSourceOrder(cat: Catalog, a: Id, b: Id)
    requires a in Joined(cat) && b in Joined(cat)
    ensures Less(ByContentAndSource(cat)[a], ByContentAndSource(cat)[b]) <==>
            Fuller(cat, a, b) || (AsFull(cat, a, b) && BetterSource(cat, a, b))
  {
    hide Less, BetterSource, BySource, BodyChars;
    SourceOrder(cat, a, b);
    MoreKeys(ContentRank(cat, a), -BodyChars(cat.rows[a]), BySource(cat)[a],
             ContentRank(cat, b), -BodyChars(cat.rows[b]), BySource(cat)[b]);
  }

  lemma ContentKindOrder(cat: Catalog, a: Id, b: Id)
    requires a in Joined(cat) && b in Joined(cat)
    ensures Less(ByContentAndKind(cat)[a], ByContentAndKind(cat)[b]) <==>
            Fuller(cat, a, b) || (AsFull(cat, a, b) && BetterKind(cat, a, b))
  {
    hide Less, BetterKind, ByKind, BodyChars;
    KindOrder(cat, a, b);
    MoreKeys(ContentRank(cat, a), -BodyChars(cat.rows[a]), ByKind(cat)[a],
             ContentRank(cat, b), -BodyChars(cat.rows[b]), ByKind(cat)[b]);
  }

  /** The dated before the undated, the older first, then the earlier fetch, then the smaller id. */
  predicate Older(cat: Catalog, a: Id, b: Id)
    requires a in cat.rows && b in cat.rows
  {
    var ra, rb := cat.rows[a], cat.rows[b];
    if ra.publishedAt != rb.publishedAt then
      ra.publishedAt.Some? && (rb.publishedAt.None? || ra.publishedAt.value < rb.publishedAt.value)
    else if ra.fetchedAt != rb.fetchedAt then ra.fetchedAt < rb.fetchedAt
    else a < b
  }

  lemma AgeOrder(cat: Catalog, a: Id, b: Id)
    requires a in Joined(cat) && b in Joined(cat)
    ensures Less(ByAge(cat)[a], ByAge(cat)[b]) <==> Older(cat, a, b)
  {
    hide Less;
    var ra, rb := cat.rows[a], cat.rows[b];
    var da := if ra.publishedAt.Some? then 0 else 1;
    var db := if rb.publishedAt.Some? then 0 else 1;
    var ta := if ra.publishedAt.Some? then ra.publishedAt.value else 0;
    var tb := if rb.publishedAt.Some? then rb.publishedAt.value else 0;
    var p, q := [da, ta] + [ra.fetchedAt, a], [db, tb] + [rb.fetchedAt, b];
    MoreKeys(da, ta, [ra.fetchedAt, a], db, tb, [rb.fetchedAt, b]);
    TwoKeys(ra.fetchedAt, a, rb.fetchedAt, b);
    assert Less(p, q) <==> Older(cat, a, b);
    assert ByAge(cat)[a] == p && ByAge(cat)[b] == q;
  }

  predicate Releasable(cat: Catalog, t: Option<Target>, id: Id) {
    && t.Some? && id in cat.rows && cat.rows[id].company in cat.companies && cat.rows[id].source in cat.sources
    && var row, source := cat.rows[id], cat.sources[cat.rows[id].source];
       && !row.isPrivate && source.approved && (source.exportAllowed || t.value.approvedPublic)
       && (|| source.kind == Rss || source.kind == Atom
           || (source.recipe && (source.kind == Html || source.kind == Browser)))
       && (row.publishedAt == None || row.publishedAt.value <= cat.now)
  }

  lemma ReleasableIsEligible(cat: Catalog, t: Option<Target>, id: Id)
    ensures Releasable(cat, t, id) <==> id in ExportEligible(cat, t)
    ensures Releasable(cat, t, id) ==> id in Joined(cat)
  {
  }

  ghost predicate FullestAtAddress(cat: Catalog, t: Option<Target>, id: Id) {
    && Releasable(cat, t, id)
    && forall k :: k != id && Releasable(cat, t, k) && SameAddress(cat.rows[k], cat.rows[id]) ==>
         && id in Joined(cat) && k in Joined(cat)
         && (Fuller(cat, id, k) || (AsFull(cat, id, k) && BetterSource(cat, id, k)))
  }

  ghost predicate FullestOfStory(cat: Catalog, t: Option<Target>, id: Id) {
    && FullestAtAddress(cat, t, id)
    && forall k :: k != id && FullestAtAddress(cat, t, k) && SameStory(cat.rows[k], cat.rows[id]) ==>
         && id in Joined(cat) && k in Joined(cat)
         && (Fuller(cat, id, k) || (AsFull(cat, id, k) && BetterKind(cat, id, k)))
  }

  /** Of the stories at one address, under companies that share a key of the archive, the oldest. */
  ghost predicate OldestInArchive(cat: Catalog, t: Option<Target>, id: Id) {
    && FullestOfStory(cat, t, id)
    && forall k :: k != id && FullestOfStory(cat, t, k) && SameArchiveAddress(cat, k, id) ==>
         k in cat.rows && id in cat.rows && Older(cat, id, k)
  }

  predicate SameArchiveAddress(cat: Catalog, a: Id, b: Id) {
    && a in Joined(cat) && b in Joined(cat)
    && cat.companies[cat.rows[a].company].exportKey == cat.companies[cat.rows[b].company].exportKey
    && IdentityKey(cat.rows[a].canonicalUrl) == IdentityKey(cat.rows[b].canonicalUrl)
  }

  lemma ExportAddressWinners(cat: Catalog, t: Option<Target>, id: Id)
    ensures id in ExportPerUrl(cat, t) <==> FullestAtAddress(cat, t, id)
  {
    hide Releasable, ByContentAndSource, BetterSource, Fuller, AsFull, IdentityKey, RowNumber, Less, Firsts,
         ExportEligible;
    ReleasableIsEligible(cat, t, id);
    ExportStagesDecide(cat, t);
    if id in ExportEligible(cat, t) {
      FirstExactlyWhen(ExportEligible(cat, t), UrlPart(cat), ByContentAndSource(cat), id);
      forall k | k in ExportEligible(cat, t) || Releasable(cat, t, k)
        ensures k in Joined(cat) && k in ExportEligible(cat, t) && Releasable(cat, t, k)
        ensures Less(ByContentAndSource(cat)[id], ByContentAndSource(cat)[k]) <==>
                Fuller(cat, id, k) || (AsFull(cat, id, k) && BetterSource(cat, id, k))
        ensures UrlPart(cat)[k] == UrlPart(cat)[id] <==> SameAddress(cat.rows[k], cat.rows[id])
      {
        ReleasableIsEligible(cat, t, k);
        ContentSourceOrder(cat, id, k);
      }
    }
  }

  lemma ExportStoryWinners(cat: Catalog, t: Option<Target>, id: Id)
    ensures id in ExportPerStory(cat, t) <==> FullestOfStory(cat, t, id)
  {
    hide ByContentAndKind, BetterKind, Fuller, AsFull, IdentityKey, TitleKey, RowNumber, Less, Firsts, ExportEligible,
         ExportPerUrl, FullestAtAddress;
    ExportAddressWinners(cat, t, id);
    ExportStagesDecide(cat, t);
    if id in ExportPerUrl(cat, t) {
      FirstExactlyWhen(ExportPerUrl(cat, t), StoryPart(cat), ByContentAndKind(cat), id);
      forall k | k in ExportPerUrl(cat, t) || FullestAtAddress(cat, t, k)
        ensures k in Joined(cat) && k in ExportPerUrl(cat, t) && FullestAtAddress(cat, t, k)
        ensures Less(ByContentAndKind(cat)[id], ByContentAndKind(cat)[k]) <==>
                Fuller(cat, id, k) || (AsFull(cat, id, k) && BetterKind(cat, id, k))
        ensures StoryPart(cat)[k] == StoryPart(cat)[id] <==> SameStory(cat.rows[k], cat.rows[id])
      {
        ExportAddressWinners(cat, t, k);
        ContentKindOrder(cat, id, k);
      }
    }
  }

  lemma ArchiveWinners(cat: Catalog, t: Option<Target>, id: Id)
    ensures id in ExportPerArchiveUrl(cat, t) <==> OldestInArchive(cat, t, id)
  {
    hide ByAge, Older, IdentityKey, RowNumber, Less, Firsts, ExportPerStory, FullestOfStory;
    ExportStoryWinners(cat, t, id);
    ExportStagesDecide(cat, t);
    if id in ExportPerStory(cat, t) {
      FirstExactlyWhen(ExportPerStory(cat, t), ArchivePart(cat), ByAge(cat), id);
      forall k | k in ExportPerStory(cat, t) || FullestOfStory(cat, t, k)
        ensures k in Joined(cat) && k in ExportPerStory(cat, t) && FullestOfStory(cat, t, k)
        ensures Less(ByAge(cat)[id], ByAge(cat)[k]) <==> Older(cat, id, k)
        ensures ArchivePart(cat)[k] == ArchivePart(cat)[id] <==> SameArchiveAddress(cat, k, id)
      {
        ExportStoryWinners(cat, t, k);
        AgeOrder(cat, id, k);
      }
    }
  }

  /**
   The export holds exactly the releasable items with no better copy at their address, no better one of their story
   among those, and no older one at their address in the archive among those.
   */
  lemma ExportedExactlyWhen(cat: Catalog, t: Option<Target>, id: Id)
    ensures id in ListExportable(cat, t) <==> OldestInArchive(cat, t, id)
  {
    hide OldestInArchive, ExportPerArchiveUrl, ByAge;
    ArchiveWinners(cat, t, id);
  }

  /** Each item is exported once, the oldest first. */
  lemma ExportOrder(cat: Catalog, t: Option<Target>, i: nat, j: nat)
    requires i < j < |ListExportable(cat, t)|
    ensures var a, b := ListExportable(cat, t)[i], ListExportable(cat, t)[j];
            a != b && a in cat.rows && b in cat.rows && Older(cat, a, b)
  {
    hide ExportEligible, UrlPart, StoryPart, ArchivePart, ByContentAndSource, ByContentAndKind, ByAge, Firsts, Less;
    var list := ListExportable(cat, t);
    assert list[i] in ExportPerArchiveUrl(cat, t) && list[j] in ExportPerArchiveUrl(cat, t);
    AgeOrder(cat, list[i], list[j]);
  }

  // ----- Titles and search texts

  /** The words of a title: what stands between whitespace. */
  function Words(s: string): seq<string> {
    if s == [] then []
    else if IsWhitespace(s[0]) then Words(s[1..])
    else [FirstWord(s)] + Words(s[|FirstWord(s)|..])
  }

  function FirstWord(s: string): (r: string)
    ensures r <= s && (s != [] && !IsWhitespace(s[0]) ==> r != [])
  {
    if s == [] || IsWhitespace(s[0]) then []
    else
      var rest := FirstWord(s[1..]);
      assert s == [s[0]] + s[1..];
      [s[0]] + rest
  }

  lemma {:induction false} CollapseKeepsFirstWord(s: string)
    ensures FirstWord(Collapse(s, false)) == FirstWord(s)
    ensures Collapse(s, false)[|FirstWord(s)|..] == Collapse(s[|FirstWord(s)|..], false)
  {
    hide IsWhitespace;
    if s != [] && !IsWhitespace(s[0]) {
      var c, rest := Collapse(s, false), s[1..];
      CollapseKeepsFirstWord(rest);
      assert c == [s[0]] + Collapse(rest, false) && c[1..] == Collapse(rest, false);
      assert s[|FirstWord(s)|..] == rest[|FirstWord(rest)|..];
      assert c[|FirstWord(s)|..] == Collapse(rest, false)[|FirstWord(rest)|..];
    } else if s != [] {
      SpaceIsWhitespace();
    }
  }

  lemma SpaceIsWhitespace()
    ensures IsWhitespace(' ')
  {
  }

  /** Collapsing whitespace keeps the words. */
  lemma {:induction false} CollapseKeepsWords(s: string, inRun: bool)
    ensures Words(Collapse(s, inRun)) == Words(s)
    decreases |s|
  {
    hide IsWhitespace;
    SpaceIsWhitespace();
    if s != [] && IsWhitespace(s[0]) {
      var rest := Collapse(s[1..], true);
      CollapseKeepsWords(s[1..], true);
      if inRun {
        assert Collapse(s, inRun) == rest;
      } else {
        assert Collapse(s, inRun) == " " + rest && (" " + rest)[0] == ' ' && (" " + rest)[1..] == rest;
      }
    } else if s != [] {
      CollapseIgnoresRun(s, inRun);
      CollapseKeepsFirstWord(s);
      CollapseKeepsWords(s[|FirstWord(s)|..], false);
    }
  }

  lemma CollapseIgnoresRun(s: string, inRun: bool)
    requires s != [] && !IsWhitespace(s[0])
    ensures Collapse(s, inRun) == Collapse(s, false)
  {
  }

  lemma {:induction false} TrimKeepsWords(s: string)
    ensures Words(TrimSpaces(s)) == Words(s)
    decreases |s|
  {
    hide IsWhitespace;
    SpaceIsWhitespace();
    if s != [] && s[0] == ' ' {
      TrimKeepsWords(s[1..]);
    } else if s != [] && s[|s| - 1] == ' ' {
      var front := s[..|s| - 1];
      TrimKeepsWords(front);
      assert s == front + " ";
      SpaceEndsNoWord(front);
    }
  }

  lemma {:induction false} SpaceEndsNoWord(s: string)
    ensures Words(s + " ") == Words(s)
    decreases |s|
  {
    hide IsWhitespace;
    SpaceIsWhitespace();
    if s == [] {
      assert (s + " ")[1..] == [];
    } else if IsWhitespace(s[0]) {
      assert (s + " ")[1..] == s[1..] + " ";
      SpaceEndsNoWord(s[1..]);
    } else {
      FirstWordBeforeSpace(s);
      var n := |FirstWord(s)|;
      assert (s + " ")[n..] == s[n..] + " ";
      SpaceEndsNoWord(s[n..]);
    }
  }

  lemma {:induction false} FirstWordBeforeSpace(s: string)
    ensures FirstWord(s + " ") == FirstWord(s)
  {
    hide IsWhitespace;
    SpaceIsWhitespace();
    if s != [] && !IsWhitespace(s[0]) {
      assert (s + " ")[1..] == s[1..] + " ";
      FirstWordBeforeSpace(s[1..]);
    }
  }

  /** Titles of one story have the same words up to the case of letters. */
  lemma SameTitleSameWords(a: string, b: string)
    requires TitleKey(a) == TitleKey(b)
    ensures Words(Lower(a)) == Words(Lower(b))
  {
    hide Words, TrimSpaces, Collapse, Lower;
    KeyHasTheWords(a);
    KeyHasTheWords(b);
  }

  lemma KeyHasTheWords(title: string)
    ensures Words(TitleKey(title)) == Words(Lower(title))
  {
    hide Words, TrimSpaces, Collapse, Lower;
    CollapseFolds(TrimSpaces(title), false);
    TrimFolds(title);
    CollapseKeepsWords(TrimSpaces(Lower(title)), false);
    TrimKeepsWords(Lower(title));
  }

  /** Trimming takes the spaces off both ends and nothing else. */
  lemma {:induction false} TrimTakesSpaces(s: string) returns (left: string, right: string)
    ensures left + TrimSpaces(s) + right == s
    ensures forall i :: 0 <= i < |left| ==> left[i] == ' '
    ensures forall i :: 0 <= i < |right| ==> right[i] == ' '
    ensures var r := TrimSpaces(s); r != [] ==> r[0] != ' ' && r[|r| - 1] != ' '
    decreases |s|
  {
    var mid := TrimSpaces(s);
    if s != [] && s[0] == ' ' {
      left, right := TrimTakesSpaces(s[1..]);
      assert s == " " + s[1..] == " " + (left + mid + right) == " " + left + mid + right;
      left := " " + left;
    } else if s != [] && s[|s| - 1] == ' ' {
      left, right := TrimTakesSpaces(s[..|s| - 1]);
      assert s == s[..|s| - 1] + " " == left + mid + right + " " == left + mid + (right + " ");
      right := right + " ";
    } else {
      left, right := [], [];
      assert s == left + s + right;
    }
  }

  /** A search text without wildcards is found where it occurs in any case of letters. */
  lemma SearchIgnoresCase(s: string, search: string)
    requires PlainPattern(search)
    ensures Contains(s, search) <==> exists i :: PrefixAt(Lower(s), Lower(search), i)
  {
    hide Like, PrefixAt, Lower;
    assert forall i :: 0 <= i < |search| ==> Lower(search)[i] == LowerChar(search[i]);
    SearchIsSubstring(Lower(s), Lower(search));
    assert Contains(s, search) == Like(Lower(s), "%" + Lower(search) + "%");
  }

  /** Wildcards written with a backslash. */
  function Quoted(p: string): string {
    if p == [] then []
    else (if p[0] in {'%', '_', '\\'} then ['\\', p[0]] else [p[0]]) + Quoted(p[1..])
  }

  lemma {:induction false} QuotedMatches(s: string, p: string)
    ensures Like(s, Quoted(p)) <==> s == p
  {
    if p != [] {
      var q := Quoted(p);
      if p[0] in {'%', '_', '\\'} {
        assert q[0] == '\\' && q[1] == p[0] && q[2..] == Quoted(p[1..]);
      } else {
        assert q[0] == p[0] && q[1..] == Quoted(p[1..]);
      }
      assert p == [p[0]] + p[1..];
      if s != [] {
        assert s == [s[0]] + s[1..];
        QuotedMatches(s[1..], p[1..]);
      }
    }
  }

  /** An underscore stands for one character, whichever it is. */
  lemma {:induction false} UnderscoresCount(s: string, p: string)
    requires forall i :: 0 <= i < |p| ==> p[i] == '_'
    ensures Like(s, p) <==> |s| == |p|
    decreases |p|
  {
    if p != [] && s != [] {
      UnderscoresCount(s[1..], p[1..]);
    }
  }
}
