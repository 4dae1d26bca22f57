/**
 The read side: the list of feed-item summaries, the query that counts it, and the export list.
 Each removes duplicates in stages with row_number() = 1; the count groups by the story instead.
 */
module Projections {
  import opened Common
  import opened Ranking
  import opened UrlIdentity

  type CompanyId = nat
  type SourceId = nat
  type Time = int  // microseconds

  const DAY := 86_400_000_000
  const LONG_BODY := 200

  datatype Kind = Rss | Atom | Html | Browser | OtherKind

  datatype Row = Row(
    company: CompanyId,
    source: SourceId,
    canonicalUrl: string,
    title: string,
    summary: string,
    bodyText: string,
    publishedAt: Option<Time>,
    fetchedAt: Time,
    createdAt: Time,
    kind: Kind,
    isPrivate: bool)

  /** `recipe` says that an active recipe without a pending rebuild belongs to the source. */
  datatype Source = Source(approved: bool, kind: Kind, exportAllowed: bool, recipe: bool)

  /** `exportKey` is the company key of the public archive, which several share classes may have in common. */
  datatype Company = Company(name: string, exportKey: string)

  /** `crawled` holds the items whose content crawl has succeeded. */
  datatype Catalog = Catalog(
    rows: map<Id, Row>,
    sources: map<SourceId, Source>,
    companies: map<CompanyId, Company>,
    crawled: set<Id>,
    now: Time)

  datatype Filter = Filter(
    company: Option<CompanyId>,
    source: Option<SourceId>,
    kind: Option<Kind>,
    search: Option<string>,
    includeFuture: bool,
    limit: int,
    offset: int)

  /** The rows with a company and a source, which is what the joins keep. */
  function Joined(cat: Catalog): set<Id> {
    set k | k in cat.rows && cat.rows[k].company in cat.companies && cat.rows[k].source in cat.sources
  }

  function KindRank(kind: Kind): int {
    match kind
    case Rss => 0
    case Atom => 1
    case Html => 2
    case _ => 3
  }

  // ----- Which items a filter admits

  /** LIKE, with % for any text, _ for any character and a backslash before a literal one. */
  predicate Like(s: string, pattern: string)
    decreases |pattern|, |s|
  {
    if pattern == [] then s == []
    else if pattern[0] == '%' then Like(s, pattern[1..]) || (s != [] && Like(s[1..], pattern))
    else if pattern[0] == '_' then s != [] && Like(s[1..], pattern[1..])
    else if pattern[0] == '\\' && |pattern| > 1 then s != [] && s[0] == pattern[1] && Like(s[1..], pattern[2..])
    else s != [] && s[0] == pattern[0] && Like(s[1..], pattern[1..])
  }

  predicate Contains(s: string, search: string) { Like(Lower(s), "%" + Lower(search) + "%") }

  predicate PlainPattern(p: string) { forall i :: 0 <= i < |p| ==> p[i] !in {'%', '_', '\\'} }

  lemma {:induction false} LikeAnything(s: string)
    ensures Like(s, "%")
  {
    assert "%"[1..] == "";
    if s != [] {
      LikeAnything(s[1..]);
    }
  }

  lemma {:induction false} LikePrefix(s: string, p: string)
    requires PlainPattern(p)
    ensures Like(s, p + "%") <==> p <= s
    decreases |p|
  {
    if p == [] {
      assert p + "%" == "%";
      LikeAnything(s);
    } else {
      assert (p + "%")[0] == p[0] && (p + "%")[1..] == p[1..] + "%";
      assert p[0] !in {'%', '_', '\\'};
      if s != [] {
        LikePrefix(s[1..], p[1..]);
        assert p <= s <==> p[0] == s[0] && p[1..] <= s[1..] by {
          assert s == [s[0]] + s[1..] && p == [p[0]] + p[1..];
        }
      }
    }
  }

  predicate PrefixAt(s: string, p: string, i: int) { 0 <= i <= |s| && p <= s[i..] }

  lemma PrefixShifts(s: string, p: string, i: int)
    requires s != []
    ensures PrefixAt(s[1..], p, i) ==> PrefixAt(s, p, i + 1)
    ensures PrefixAt(s, p, i) && i > 0 ==> PrefixAt(s[1..], p, i - 1)
  {
    if 0 <= i < |s| {
      assert s[1..][i..] == s[i + 1..];
    }
    if 0 < i <= |s| {
      assert s[1..][i - 1..] == s[i..];
    }
  }

  /** A search text without wildcards is found exactly where it occurs. */
  lemma {:induction false} SearchIsSubstring(s: string, p: string)
    requires PlainPattern(p)
    ensures Like(s, "%" + p + "%") <==> exists i :: PrefixAt(s, p, i)
  {
    hide PrefixAt;
    var pattern := "%" + p + "%";
    assert pattern[0] == '%' && pattern[1..] == p + "%";
    LikePrefix(s, p);
    PrefixAtStart(s, p);
    if s != [] {
      SearchIsSubstring(s[1..], p);
      if i :| PrefixAt(s[1..], p, i) {
        PrefixShifts(s, p, i);
      }
      if i :| PrefixAt(s, p, i) {
        PrefixShifts(s, p, i);
        PrefixInRange(s, p, i);
      }
    } else if i :| PrefixAt(s, p, i) {
      PrefixInRange(s, p, i);
    }
  }

  lemma PrefixAtStart(s: string, p: string)
    ensures PrefixAt(s, p, 0) <==> p <= s
  {
    assert s[0..] == s;
  }

  lemma PrefixInRange(s: string, p: string, i: int)
    requires PrefixAt(s, p, i)
    ensures 0 <= i <= |s|
  {
  }

  predicate Served(source: Source) {
    source.approved && (source.kind.Rss? || source.kind.Atom? || source.recipe)
  }

  predicate Admits(cat: Catalog, f: Filter, id: Id)
    requires id in Joined(cat)
  {
    var row, source := cat.rows[id], cat.sources[cat.rows[id].source];
    && !row.isPrivate && Served(source)
    && (f.company.None? || f.company.value == row.company)
    && (f.source.None? || f.source.value == row.source)
    && (f.kind.None? || f.kind.value == row.kind)
    && (f.includeFuture || row.publishedAt.None? || row.publishedAt.value <= cat.now)
    && (f.search.None? || Contains(cat.companies[row.company].name, f.search.value) ||
        Contains(row.title, f.search.value)
        || Contains(row.summary, f.search.value))
  }

  function Eligible(cat: Catalog, f: Filter): (r: set<Id>)
    ensures r <= Joined(cat)
  {
    set k | k in Joined(cat) && Admits(cat, f, k)
  }

  // ----- What makes two items the same

  function TrimSpaces(s: string): string {
    if s != [] && s[0] == ' ' then TrimSpaces(s[1..])
    else if s != [] && s[|s| - 1] == ' ' then TrimSpaces(s[..|s| - 1])
    else s
  }

  /** Every run of whitespace becomes one space. */
  function Collapse(s: string, inRun: bool): string {
    if s == [] then []
    else if IsWhitespace(s[0]) then (if inRun then [] else " ") + Collapse(s[1..], true)
    else [s[0]] + Collapse(s[1..], false)
  }

  function TitleKey(title: string): string { Lower(Collapse(TrimSpaces(title), false)) }

  lemma {:induction false} GapsCollapse(a: string, gap: string, other: string, b: string, inRun: bool)
    requires gap != [] && other != [] && AllWhitespace(gap) && AllWhitespace(other)
    ensures Collapse(a + gap + b, inRun) == Collapse(a + other + b, inRun)
    decreases |a|
  {
    if a == [] {
      CollapseRun(gap, b, inRun);
      CollapseRun(other, b, inRun);
      assert a + gap == gap && a + other == other;
    } else {
      assert (a + gap + b)[1..] == a[1..] + gap + b && (a + other + b)[1..] == a[1..] + other + b;
      GapsCollapse(a[1..], gap, other, b, IsWhitespace(a[0]));
    }
  }

  lemma {:induction false} CollapseRun(gap: string, b: string, inRun: bool)
    requires gap != [] && AllWhitespace(gap)
    ensures Collapse(gap + b, inRun) == (if inRun then [] else " ") + Collapse(b, true)
    decreases |gap|
  {
    assert (gap + b)[1..] == gap[1..] + b;
    if |gap| == 1 {
      assert gap[1..] + b == b;
    } else {
      CollapseRun(gap[1..], b, true);
    }
  }

  lemma LowerFacts(a: string, b: string)
    ensures Lower(a + b) == Lower(a) + Lower(b) && Lower(Lower(a)) == Lower(a)
    ensures a != [] ==>
              Lower(a) != [] && IsWhitespace(Lower(a)[0]) == IsWhitespace(a[0]) && Lower(a)[1..] == Lower(a[1..])
  {
    hide Lower;
  }

  lemma {:induction false} CollapseFolds(s: string, inRun: bool)
    ensures Collapse(Lower(s), inRun) == Lower(Collapse(s, inRun))
    decreases |s|
  {
    hide Lower, IsWhitespace;
    LowerFacts(s, []);
    if s != [] {
      var head := if IsWhitespace(s[0]) then (if inRun then [] else " ") else [s[0]];
      CollapseFolds(s[1..], IsWhitespace(s[0]));
      LowerFacts(head, Collapse(s[1..], IsWhitespace(s[0])));
      SpaceFolds();
    } else {
      assert Lower([]) == [];
    }
  }

  lemma SpaceFolds()
    ensures Lower(" ") == " " && Lower("") == ""
  {
  }

  lemma {:induction false} TrimFolds(s: string)
    ensures TrimSpaces(Lower(s)) == Lower(TrimSpaces(s))
    decreases |s|
  {
    if s != [] && s[0] == ' ' {
      assert Lower(s)[1..] == Lower(s[1..]);
      TrimFolds(s[1..]);
    } else if s != [] && s[|s| - 1] == ' ' {
      assert Lower(s)[..|s| - 1] == Lower(s[..|s| - 1]);
      TrimFolds(s[..|s| - 1]);
    }
  }

  /** The case of a title does not matter. */
  lemma CaseDoesNotMatter(title: string)
    ensures TitleKey(Lower(title)) == TitleKey(title)
  {
    TrimFolds(title);
    CollapseFolds(TrimSpaces(title), false);
    LowerFacts(Collapse(TrimSpaces(title), false), []);
  }

  datatype Story = UndatedUrl(identity: string) | DatedTitle(day: int, title: string)

  function StoryOf(row: Row): Story {
    if row.publishedAt.None? then UndatedUrl(IdentityKey(row.canonicalUrl))
    else DatedTitle(row.publishedAt.value / DAY, TitleKey(row.title))
  }

  predicate HasWord(s: string) { exists i :: 0 <= i < |s| && s[i] != ' ' }

  function TrimLeft(s: string): string { if s != [] && s[0] == ' ' then TrimLeft(s[1..]) else s }

  function TrimRight(s: string): string { if s != [] && s[|s| - 1] == ' ' then TrimRight(s[..|s| - 1]) else s }

  /** Trimming stops at a word on either side. */
  lemma {:induction false} TrimAround(a: string, mid: string, b: string)
    requires HasWord(a) && HasWord(b)
    ensures TrimSpaces(a + mid + b) == TrimLeft(a) + mid + TrimRight(b)
    decreases |a| + |b|
  {
    var s := a + mid + b;
    if a[0] == ' ' {
      assert s[1..] == a[1..] + mid + b;
      assert HasWord(a[1..]) by {
        var i :| 0 <= i < |a| && a[i] != ' ';
        assert a[1..][i - 1] == a[i];
      }
      TrimAround(a[1..], mid, b);
    } else if b[|b| - 1] == ' ' {
      assert s[..|s| - 1] == a + mid + b[..|b| - 1];
      assert HasWord(b[..|b| - 1]) by {
        var i :| 0 <= i < |b| && b[i] != ' ';
        assert b[..|b| - 1][i] == b[i];
      }
      TrimAround(a, mid, b[..|b| - 1]);
    }
  }

  /** How much whitespace stands between two words of a title, and of which kind, does not change the story. */
  lemma SpacingDoesNotMatter(row: Row, a: string, gap: string, other: string, b: string)
    requires gap != [] && other != [] && AllWhitespace(gap) && AllWhitespace(other) && HasWord(a) && HasWord(b)
    ensures StoryOf(row.(title := a + gap + b)) == StoryOf(row.(title := a + other + b))
  {
    hide TrimSpaces, TrimLeft, TrimRight, Collapse, Lower, IdentityKey;
    TrimAround(a, gap, b);
    TrimAround(a, other, b);
    GapsCollapse(TrimLeft(a), gap, other, TrimRight(b), false);
  }

  function UrlPart(cat: Catalog): (r: map<Id, (CompanyId, string)>)
    ensures r.Keys == Joined(cat)
  {
    map k | k in Joined(cat) :: (cat.rows[k].company, IdentityKey(cat.rows[k].canonicalUrl))
  }

  function StoryPart(cat: Catalog): (r: map<Id, (CompanyId, Story)>)
    ensures r.Keys == Joined(cat)
  {
    map k | k in Joined(cat) :: (cat.rows[k].company, StoryOf(cat.rows[k]))
  }

  function ArchivePart(cat: Catalog): (r: map<Id, (string, string)>)
    ensures r.Keys == Joined(cat)
  {
    map k | k in Joined(cat) :: (cat.companies[cat.rows[k].company].exportKey, IdentityKey(cat.rows[k].canonicalUrl))
  }

  // ----- Which of them comes first

  function BySource(cat: Catalog): (r: SortKeys)
    ensures r.Keys == Joined(cat)
  {
    map k | k in Joined(cat) :: [KindRank(cat.sources[cat.rows[k].source].kind), -cat.rows[k].fetchedAt, k]
  }

  function ByKind(cat: Catalog): (r: SortKeys)
    ensures r.Keys == Joined(cat)
  {
    map k | k in Joined(cat) :: [KindRank(cat.rows[k].kind), -cat.rows[k].fetchedAt, k]
  }

  function SortTime(row: Row): Time { if row.publishedAt.Some? then row.publishedAt.value else row.createdAt }

  function ByRecency(cat: Catalog): (r: SortKeys)
    ensures r.Keys == Joined(cat)
  {
    map k | k in Joined(cat) ::
      [-SortTime(cat.rows[k]), -cat.rows[k].createdAt, k]
  }

  function BodyChars(row: Row): int { |TrimSpaces(row.bodyText)| }

  function ContentRank(cat: Catalog, id: Id): int
    requires id in cat.rows
  {
    if id in cat.crawled then 0 else if BodyChars(cat.rows[id]) >= LONG_BODY then 1 else 2
  }

  function ByContentAndSource(cat: Catalog): (r: SortKeys)
    ensures r.Keys == Joined(cat)
  {
    map k | k in Joined(cat) :: [ContentRank(cat, k), -BodyChars(cat.rows[k])] + BySource(cat)[k]
  }

  function ByContentAndKind(cat: Catalog): (r: SortKeys)
    ensures r.Keys == Joined(cat)
  {
    map k | k in Joined(cat) :: [ContentRank(cat, k), -BodyChars(cat.rows[k])] + ByKind(cat)[k]
  }

  /** ORDER BY published_at ASC NULLS LAST, fetched_at, id. */
  function ByAge(cat: Catalog): (r: SortKeys)
    ensures r.Keys == Joined(cat)
  {
    map k | k in Joined(cat) ::
      var row := cat.rows[k];
      [if row.publishedAt.Some? then 0 else 1, if row.publishedAt.Some? then row.publishedAt.value else 0,
       row.fetchedAt, k]
  }

  lemma OrdersDecide(cat: Catalog, ids: set<Id>)
    requires ids <= Joined(cat)
    ensures Decides(BySource(cat), ids) && Decides(ByKind(cat), ids) && Decides(ByRecency(cat), ids)
    ensures Decides(ByContentAndSource(cat), ids) && Decides(ByContentAndKind(cat), ids) && Decides(ByAge(cat), ids)
  {
    IdLastDecides(BySource(cat), ids);
    IdLastDecides(ByKind(cat), ids);
    IdLastDecides(ByRecency(cat), ids);
    IdLastDecides(ByContentAndSource(cat), ids);
    IdLastDecides(ByContentAndKind(cat), ids);
    IdLastDecides(ByAge(cat), ids);
  }

  // ----- The summaries and their count

  function OnePerUrl(cat: Catalog, f: Filter): set<Id> { Firsts(Eligible(cat, f), UrlPart(cat), BySource(cat)) }

  function OnePerStory(cat: Catalog, f: Filter): set<Id> { Firsts(OnePerUrl(cat, f), StoryPart(cat), ByKind(cat)) }

  ghost function AllSummaries(cat: Catalog, f: Filter): seq<Id> {
    OrdersDecide(cat, OnePerStory(cat, f));
    Ordered(OnePerStory(cat, f), ByRecency(cat))
  }

  /** A negative LIMIT or OFFSET is an error of the database. */
  ghost function ListSummaries(cat: Catalog, f: Filter): Result<seq<Id>, string> {
    if f.limit < 0 || f.offset < 0 then Err("LIMIT and OFFSET must not be negative")
    else Ok(Page(AllSummaries(cat, f), f.limit, f.offset))
  }

  /** SELECT count(*) FROM (... GROUP BY company_id, story_identity). */
  function CountSummaries(cat: Catalog, f: Filter): nat { |Image(OnePerUrl(cat, f), StoryPart(cat))| }

  /** The two queries agree, for every filter. */
  lemma CountIsTheLengthOfTheList(cat: Catalog, f: Filter)
    ensures CountSummaries(cat, f) == |AllSummaries(cat, f)|
  {
    hide Joined, Eligible, StoryPart, UrlPart, ByKind, BySource, ByRecency, RowNumber;
    OrdersDecide(cat, OnePerUrl(cat, f));
    FirstsCountGroups(OnePerUrl(cat, f), StoryPart(cat), ByKind(cat));
  }

  ghost function Paged(cat: Catalog, f: Filter, size: nat, page: nat): seq<Id> {
    var r := ListSummaries(cat, f.(limit := size, offset := page * size));
    if r.Ok? then r.value else []
  }

  ghost function FirstPages(cat: Catalog, f: Filter, size: nat, n: nat): seq<Id> {
    if n == 0 then [] else FirstPages(cat, f, size, n - 1) + Paged(cat, f, size, n - 1)
  }

  /** Pages read one after the other are the pages of the whole list. */
  lemma {:induction false} PagesOfTheList(cat: Catalog, f: Filter, size: nat, n: nat)
    ensures FirstPages(cat, f, size, n) == Pages(AllSummaries(cat, f), size, n)
  {
    hide AllSummaries, CountSummaries, ListSummaries, Page;
    if n != 0 {
      PagesOfTheList(cat, f, size, n - 1);
      FilterIgnoresPage(cat, f, size, (n - 1) * size);
    }
  }

  /** Enough pages for the count that the other query reports give the whole list. */
  lemma CountedPagesGiveTheList(cat: Catalog, f: Filter, size: nat, n: nat)
    requires n * size >= CountSummaries(cat, f)
    ensures FirstPages(cat, f, size, n) == AllSummaries(cat, f)
  {
    hide AllSummaries, CountSummaries, FirstPages, Pages;
    CountIsTheLengthOfTheList(cat, f);
    PagesOfTheList(cat, f, size, n);
    PagesConcatenate(AllSummaries(cat, f), size, n);
  }

  lemma AdmissionIgnoresPage(cat: Catalog, f: Filter, limit: nat, offset: nat, id: Id)
    requires id in Joined(cat)
    ensures Admits(cat, f.(limit := limit, offset := offset), id) == Admits(cat, f, id)
  {
    hide Contains, Served;
  }

  lemma FilterIgnoresPage(cat: Catalog, f: Filter, limit: nat, offset: nat)
    ensures AllSummaries(cat, f.(limit := limit, offset := offset)) == AllSummaries(cat, f)
    ensures ListSummaries(cat, f.(limit := limit, offset := offset)) == Ok(Page(AllSummaries(cat, f), limit, offset))
  {
    hide StoryPart, UrlPart, ByKind, BySource, ByRecency, Firsts, Page, Admits, Ordered;
    var g := f.(limit := limit, offset := offset);
    assert Eligible(cat, g) == Eligible(cat, f) by {
      forall k | k in Joined(cat)
        ensures Admits(cat, f, k) == Admits(cat, g, k)
      {
        AdmissionIgnoresPage(cat, f, limit, offset, k);
      }
    }
  }

  /** No two listed items share a company and an address, or a company and a story. */
  lemma ListedItemsDiffer(cat: Catalog, f: Filter, a: Id, b: Id)
    requires a in AllSummaries(cat, f) && b in AllSummaries(cat, f) && a != b
    ensures UrlPart(cat)[a] != UrlPart(cat)[b] && StoryPart(cat)[a] != StoryPart(cat)[b]
  {
    hide Joined, Eligible, StoryPart, UrlPart, ByKind, BySource, ByRecency, RowNumber;
    OrdersDecide(cat, OnePerUrl(cat, f));
    OrdersDecide(cat, Eligible(cat, f));
    if UrlPart(cat)[a] == UrlPart(cat)[b] {
      FirstsAreUnique(Eligible(cat, f), UrlPart(cat), BySource(cat), a, b);
    }
    if StoryPart(cat)[a] == StoryPart(cat)[b] {
      FirstsAreUnique(OnePerUrl(cat, f), StoryPart(cat), ByKind(cat), a, b);
    }
  }

  lemma EligibleArePublic(cat: Catalog, f: Filter)
    ensures forall k :: k in Eligible(cat, f) ==> k in cat.rows && !cat.rows[k].isPrivate
  {
    hide Contains, Served;
  }

  lemma ExportedArePublic(cat: Catalog, t: Option<Target>)
    ensures forall k :: k in ExportEligible(cat, t) ==> k in cat.rows && !cat.rows[k].isPrivate
  {
    hide Served;
  }

  /** Every item the filter admits is in the list, or stands behind one with its address, or behind that one's story. */
  lemma EveryItemIsRepresented(cat: Catalog, f: Filter, id: Id) returns (byUrl: Id, listed: Id)
    requires id in Eligible(cat, f)
    ensures StandsFor(Eligible(cat, f), UrlPart(cat), BySource(cat), byUrl, id)
    ensures StandsFor(OnePerUrl(cat, f), StoryPart(cat), ByKind(cat), listed, byUrl)
    ensures listed in AllSummaries(cat, f)
    ensures forall k :: k in {id, byUrl, listed} ==> k in cat.rows && !cat.rows[k].isPrivate
  {
    EligibleArePublic(cat, f);
    hide Joined, Eligible, StoryPart, UrlPart, ByKind, BySource, ByRecency, RowNumber;
    OrdersDecide(cat, Eligible(cat, f));
    OrdersDecide(cat, OnePerUrl(cat, f));
    byUrl := EachHasAFirst(Eligible(cat, f), UrlPart(cat), BySource(cat), id);
    listed := EachHasAFirst(OnePerUrl(cat, f), StoryPart(cat), ByKind(cat), byUrl);
  }

  /** The list runs from the newest item to the oldest. */
  lemma NewestFirst(cat: Catalog, f: Filter, i: nat, j: nat)
    requires i < j < |AllSummaries(cat, f)|
    ensures var list := AllSummaries(cat, f);
            && list[i] in cat.rows && list[j] in cat.rows
            && SortTime(cat.rows[list[i]]) >= SortTime(cat.rows[list[j]])
            && (SortTime(cat.rows[list[i]]) == SortTime(cat.rows[list[j]]) ==>
                  cat.rows[list[i]].createdAt >= cat.rows[list[j]].createdAt)
  {
    hide Eligible, UrlPart, StoryPart, BySource, ByKind, Firsts;
    var list := AllSummaries(cat, f);
    assert list[i] in OnePerStory(cat, f) && list[j] in OnePerStory(cat, f);
    LessStartsLow(ByRecency(cat)[list[i]], ByRecency(cat)[list[j]]);
  }

  /** Of the copies of one address, the feed beats the page, and then the latest fetch wins. */
  lemma FeedBeatsPage(cat: Catalog, f: Filter, byUrl: Id, id: Id)
    requires id in Eligible(cat, f) && StandsFor(Eligible(cat, f), UrlPart(cat), BySource(cat), byUrl, id)
    ensures var won, lost := cat.rows[byUrl], cat.rows[id];
            && won.company == lost.company && IdentityKey(won.canonicalUrl) == IdentityKey(lost.canonicalUrl)
            && KindRank(cat.sources[won.source].kind) <= KindRank(cat.sources[lost.source].kind)
            && (KindRank(cat.sources[won.source].kind) == KindRank(cat.sources[lost.source].kind) ==>
                won.fetchedAt >= lost.fetchedAt)
  {
    hide Eligible, IdentityKey;
    if byUrl != id {
      LessStartsLow(BySource(cat)[byUrl], BySource(cat)[id]);
    }
  }

  // ----- The export

  datatype Target = Target(approvedPublic: bool)

  predicate Exportable(cat: Catalog, target: Target, id: Id)
    requires id in Joined(cat)
  {
    var row, source := cat.rows[id], cat.sources[cat.rows[id].source];
    && !row.isPrivate
    && (row.publishedAt.None? || row.publishedAt.value <= cat.now)
    && (source.exportAllowed || target.approvedPublic)
    && !source.kind.OtherKind? && Served(source)
  }

  /** Without a target row nothing is exported. */
  function ExportEligible(cat: Catalog, target: Option<Target>): (r: set<Id>)
    ensures r <= Joined(cat)
  {
    set k | k in Joined(cat) && target.Some? && Exportable(cat, target.value, k)
  }

  function ExportPerUrl(cat: Catalog, t: Option<Target>): set<Id> {
    Firsts(ExportEligible(cat, t), UrlPart(cat), ByContentAndSource(cat))
  }

  function ExportPerStory(cat: Catalog, t: Option<Target>): set<Id> {
    Firsts(ExportPerUrl(cat, t), StoryPart(cat), ByContentAndKind(cat))
  }

  function ExportPerArchiveUrl(cat: Catalog, t: Option<Target>): set<Id> {
    Firsts(ExportPerStory(cat, t), ArchivePart(cat), ByAge(cat))
  }

  ghost function ListExportable(cat: Catalog, t: Option<Target>): seq<Id> {
    OrdersDecide(cat, ExportPerArchiveUrl(cat, t));
    Ordered(ExportPerArchiveUrl(cat, t), ByAge(cat))
  }

  lemma ExportStagesDecide(cat: Catalog, t: Option<Target>)
    ensures ExportEligible(cat, t) <= Joined(cat)
    ensures Decides(ByContentAndSource(cat), ExportEligible(cat, t))
    ensures Decides(ByContentAndKind(cat), ExportPerUrl(cat, t))
    ensures Decides(ByAge(cat), ExportPerStory(cat, t))
  {
    OrdersDecide(cat, ExportEligible(cat, t));
    OrdersDecide(cat, ExportPerUrl(cat, t));
    OrdersDecide(cat, ExportPerStory(cat, t));
  }

  /** One row per archive key and address, and still one per company and address and one per company and story. */
  lemma ExportedItemsDiffer(cat: Catalog, t: Option<Target>, a: Id, b: Id)
    requires a in ListExportable(cat, t) && b in ListExportable(cat, t) && a != b
    ensures ArchivePart(cat)[a] != ArchivePart(cat)[b]
    ensures UrlPart(cat)[a] != UrlPart(cat)[b] && StoryPart(cat)[a] != StoryPart(cat)[b]
  {
    hide Joined, ExportEligible, StoryPart, UrlPart, ArchivePart, ByContentAndKind, ByContentAndSource, ByAge,
         RowNumber;
    ExportStagesDecide(cat, t);
    if ArchivePart(cat)[a] == ArchivePart(cat)[b] {
      FirstsAreUnique(ExportPerStory(cat, t), ArchivePart(cat), ByAge(cat), a, b);
    }
    if StoryPart(cat)[a] == StoryPart(cat)[b] {
      FirstsAreUnique(ExportPerUrl(cat, t), StoryPart(cat), ByContentAndKind(cat), a, b);
    }
    if UrlPart(cat)[a] == UrlPart(cat)[b] {
      FirstsAreUnique(ExportEligible(cat, t), UrlPart(cat), ByContentAndSource(cat), a, b);
    }
  }

  lemma EveryExportableIsRepresented(cat: Catalog, t: Option<Target>, id: Id)
      returns (byUrl: Id, byStory: Id, listed: Id)
    requires id in ExportEligible(cat, t)
    ensures StandsFor(ExportEligible(cat, t), UrlPart(cat), ByContentAndSource(cat), byUrl, id)
    ensures StandsFor(ExportPerUrl(cat, t), StoryPart(cat), ByContentAndKind(cat), byStory, byUrl)
    ensures StandsFor(ExportPerStory(cat, t), ArchivePart(cat), ByAge(cat), listed, byStory)
    ensures listed in ListExportable(cat, t)
    ensures forall k :: k in {id, byUrl, byStory, listed} ==> k in cat.rows && !cat.rows[k].isPrivate
  {
    ExportedArePublic(cat, t);
    hide Joined, ExportEligible, StoryPart, UrlPart, ArchivePart, ByContentAndKind, ByContentAndSource, ByAge,
         RowNumber;
    ExportStagesDecide(cat, t);
    byUrl := EachHasAFirst(ExportEligible(cat, t), UrlPart(cat), ByContentAndSource(cat), id);
    byStory := EachHasAFirst(ExportPerUrl(cat, t), StoryPart(cat), ByContentAndKind(cat), byUrl);
    listed := EachHasAFirst(ExportPerStory(cat, t), ArchivePart(cat), ByAge(cat), byStory);
  }

  /** For the archive, crawled content comes first, then the longer body. */
  lemma FullTextWins(cat: Catalog, t: Option<Target>, byUrl: Id, id: Id)
    requires id in ExportEligible(cat, t) &&
        StandsFor(ExportEligible(cat, t), UrlPart(cat), ByContentAndSource(cat), byUrl, id)
    ensures && byUrl in cat.rows && ContentRank(cat, byUrl) <= ContentRank(cat, id)
            && (ContentRank(cat, byUrl) == ContentRank(cat, id) ==>
                BodyChars(cat.rows[byUrl]) >= BodyChars(cat.rows[id]))
  {
    hide ExportEligible, IdentityKey, ContentRank, BodyChars;
    if byUrl != id {
      LessStartsLow(ByContentAndSource(cat)[byUrl], ByContentAndSource(cat)[id]);
    }
  }

  predicate SharesKey(cat: Catalog, company: CompanyId) {
    exists c :: c in cat.companies && c != company && company in cat.companies &&
        cat.companies[c].exportKey == cat.companies[company].exportKey
  }

  /** The last stage drops nothing of a company whose archive key is its own. */
  lemma UnmergedCompaniesKeepAll(cat: Catalog, t: Option<Target>, id: Id)
    requires id in ExportPerStory(cat, t) && !SharesKey(cat, cat.rows[id].company)
    ensures id in ListExportable(cat, t)
  {
    ExportStagesDecide(cat, t);
    var first := EachHasAFirst(ExportPerStory(cat, t), ArchivePart(cat), ByAge(cat), id);
    assert cat.rows[first].company == cat.rows[id].company;
    assert UrlPart(cat)[first] == UrlPart(cat)[id];
    FirstsAreUnique(ExportEligible(cat, t), UrlPart(cat), ByContentAndSource(cat), first, id);
  }
}
