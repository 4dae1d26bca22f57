/**
 The accumulator of discovered feeds and pages: one candidate for each kind and canonical key, with
 the strongest confidence, the best URL and all observations.
 */
module Candidates {
  import opened Common
  import opened UrlPolicy

  datatype Kind = Rss | Atom | Sitemap | Html | Browser

  function KindName(kind: Kind): string {
    match kind
    case Rss => "rss"
    case Atom => "atom"
    case Sitemap => "sitemap"
    case Html => "html"
    case Browser => "browser"
  }

  /** `ignored` recognizes URLs that are no feed; `canonical` is canonical_source_key. */
  datatype Policy = Policy(ignored: Url -> bool, canonical: (Url, Kind) -> string)

  datatype Insertion = Insertion(url: Url, kind: Kind, confidence: real, observation: string)

  datatype Source = Source(url: Url, kind: Kind, confidence: real, observations: seq<string>)

  /** The kind's name and the canonical key. */
  type Key = Pair

  type Table = map<Key, Source>

  function Bare(url: Url): Url { url.(fragment := None) }

  function UrlLen(url: Url): nat { ByteLen(url.base) + if url.query.Some? then 1 + ByteLen(url.query.value) else 0 }

  predicate Preferred(candidate: Url, existing: Url) {
    if candidate.query.None? && existing.query.Some? then true
    else if candidate.query.Some? && existing.query.None? then false
    else UrlLen(candidate) < UrlLen(existing)
  }

  predicate Admitted(p: Policy, i: Insertion) { i.kind.Sitemap? || !p.ignored(Bare(i.url)) }

  function KeyOf(p: Policy, i: Insertion): Key { (KindName(i.kind), p.canonical(Bare(i.url), i.kind)) }

  // ----- One insertion

  function Merged(existing: Source, i: Insertion): Source {
    var better := i.confidence > existing.confidence ||
        (i.confidence == existing.confidence && Preferred(Bare(i.url), existing.url));
    existing.(confidence := if i.confidence > existing.confidence then i.confidence else existing.confidence,
              url := if better then Bare(i.url) else existing.url,
              observations := existing.observations + [i.observation])
  }

  function Inserted(p: Policy, capacity: nat, table: Table, i: Insertion): Table {
    var key := KeyOf(p, i);
    if !Admitted(p, i) then table
    else if key in table then table[key := Merged(table[key], i)]
    else if |table| >= capacity then table
    else table[key := Source(Bare(i.url), i.kind, i.confidence, [i.observation])]
  }

  function Accumulated(p: Policy, capacity: nat, log: seq<Insertion>): Table {
    if log == [] then map[] else Inserted(p, capacity, Accumulated(p, capacity, log[..|log| - 1]), log[|log| - 1])
  }

  function Finished(s: Source): Source { if s.kind.Html? then s.(url := s.url.(query := None)) else s }

  /** `r` holds every candidate once, finished, in the order of the keys. */
  predicate InKeyOrder(candidates: Table, keys: seq<Key>, r: seq<Source>) {
    && Ascending(keys) && Members(keys) == candidates.Keys && |r| == |keys|
    && forall i :: 0 <= i < |keys| ==> keys[i] in candidates && r[i] == Finished(candidates[keys[i]])
  }

  // ----- The code

  class CandidateAccumulator {
    var candidates: Table
    const maxCandidates: nat
    const policy: Policy

    constructor (maxCandidates: nat, policy: Policy)
      ensures this.maxCandidates == maxCandidates && this.policy == policy &&
          candidates == Accumulated(policy, maxCandidates, [])
    {
      this.maxCandidates, this.policy, candidates := maxCandidates, policy, map[];
    }

    method InsertCandidate(rawUrl: Url, kind: Kind, confidence: real, observation: string)
      modifies this
      ensures candidates == Inserted(policy, maxCandidates, old(candidates),
                                     Insertion(rawUrl, kind, confidence, observation))
    {
      var url := rawUrl.(fragment := None);
      if kind != Sitemap && policy.ignored(url) {
        return;
      }
      var key := (KindName(kind), policy.canonical(url, kind));
      if key in candidates {
        var existing := candidates[key];
        var shouldReplaceUrl :=
          confidence > existing.confidence || (confidence == existing.confidence && Preferred(url, existing.url));
        existing := existing.(
          confidence := if confidence > existing.confidence then confidence else existing.confidence);
        if shouldReplaceUrl {
          existing := existing.(url := url);
        }
        existing := existing.(observations := existing.observations + [observation]);
        candidates := candidates[key := existing];
        return;
      }
      if |candidates| >= maxCandidates {
        return;
      }
      candidates := candidates[key := Source(url, kind, confidence, [observation])];
    }

    /** The candidates in the order of their keys; a page loses its query. */
    method Finish() returns (r: seq<Source>)
      ensures exists keys :: InKeyOrder(candidates, keys, r)
    {
      var sorted, todo := [], candidates.Keys;
      while todo != {}
        invariant Ascending(sorted) && todo <= candidates.Keys && Members(sorted) == candidates.Keys - todo
        decreases todo
      {
        var k :| k in todo;
        InsertKeepsOrder(k, sorted);
        sorted := Insert(k, sorted);
        todo := todo - {k};
      }
      r := [];
      assert forall j :: 0 <= j < |sorted| ==> sorted[j] in Members(sorted);
      for i := 0 to |sorted|
        invariant |r| == i
        invariant forall j :: 0 <= j < |sorted| ==> sorted[j] in candidates
        invariant forall j :: 0 <= j < i ==> r[j] == Finished(candidates[sorted[j]])
      {
        var candidate := candidates[sorted[i]];
        if candidate.kind == Html {
          candidate := candidate.(url := candidate.url.(query := None));
        }
        r := r + [candidate];
      }
      assert InKeyOrder(candidates, sorted, r);
    }
  }

  // ----- What the log of insertions determines

  /** The keys in the order in which they were first seen. */
  function KeysSeen(p: Policy, log: seq<Insertion>): seq<Key> {
    if log == [] then [] else
      var before, last := KeysSeen(p, log[..|log| - 1]), log[|log| - 1];
      if Admitted(p, last) && KeyOf(p, last) !in before then before + [KeyOf(p, last)] else before
  }

  function KeysHeld(p: Policy, capacity: nat, log: seq<Insertion>): seq<Key> {
    KeysSeen(p, log)[..Min(capacity, |KeysSeen(p, log)|)]
  }

  /** The insertions of one key, in order. */
  function GroupOf(p: Policy, log: seq<Insertion>, key: Key): seq<Insertion> {
    if log == [] then [] else
      var before, last := GroupOf(p, log[..|log| - 1], key), log[|log| - 1];
      if Admitted(p, last) && KeyOf(p, last) == key then before + [last] else before
  }

  function Observations(group: seq<Insertion>): seq<string> {
    if group == [] then [] else Observations(group[..|group| - 1]) + [group[|group| - 1].observation]
  }

  /** Better by confidence, then by having no query, then by being shorter. */
  predicate Better(a: Insertion, b: Insertion) {
    a.confidence > b.confidence || (a.confidence == b.confidence && Preferred(Bare(a.url), Bare(b.url)))
  }

  /** The earliest of the best. */
  predicate IsBest(group: seq<Insertion>, i: nat) {
    && i < |group|
    && (forall j :: 0 <= j < i ==> Better(group[i], group[j]))
    && (forall j :: 0 <= j < |group| ==> !Better(group[j], group[i]))
  }

  predicate TakenFrom(s: Source, group: seq<Insertion>, k: nat) {
    && k < |group| && IsBest(group, k)
    && s.url == Bare(group[k].url) && s.confidence == group[k].confidence && s.kind == group[k].kind
  }

  predicate Summarizes(s: Source, group: seq<Insertion>) {
    s.observations == Observations(group) && exists k :: 0 <= k < |group| && TakenFrom(s, group, k)
  }

  predicate Reflects(p: Policy, capacity: nat, table: Table, log: seq<Insertion>) {
    && table.Keys == Members(KeysHeld(p, capacity, log))
    && |table| == |KeysHeld(p, capacity, log)|
    && forall key :: key in table ==> Summarizes(table[key], GroupOf(p, log, key))
  }

  lemma KindNamesDiffer(a: Kind, b: Kind)
    requires KindName(a) == KindName(b)
    ensures a == b
  {
    assert |KindName(a)| == |KindName(b)|;
    assert KindName(Rss)[0] == 'r' && KindName(Atom)[0] == 'a' && KindName(Html)[0] == 'h';
    assert KindName(Sitemap)[0] == 's' && KindName(Browser)[0] == 'b';
  }

  lemma {:induction false} GroupKind(p: Policy, log: seq<Insertion>, key: Key, i: nat)
    requires i < |GroupOf(p, log, key)|
    ensures KeyOf(p, GroupOf(p, log, key)[i]) == key && GroupOf(p, log, key)[i] in log
  {
    var front := log[..|log| - 1];
    if i < |GroupOf(p, front, key)| {
      GroupKind(p, front, key, i);
    }
  }

  lemma BetterIsAnOrder(a: Insertion, b: Insertion, c: Insertion)
    ensures !Better(a, a)
    ensures Better(a, b) && !Better(c, b) ==> Better(a, c)
    ensures Better(a, b) ==> !Better(b, a)
  {
    hide UrlLen;
  }

  /** The earliest best insertion stays the best unless the new one is better. */
  lemma BestAfter(group: seq<Insertion>, k: nat, i: Insertion)
    requires IsBest(group, k)
    ensures IsBest(group + [i], if Better(i, group[k]) then |group| else k)
  {
    hide Better;
    var longer := group + [i];
    forall j | 0 <= j < |longer|
      ensures j < |group| && Better(i, group[k]) ==> Better(i, longer[j])
      ensures Better(i, group[k]) ==> !Better(longer[j], i)
      ensures !Better(i, group[k]) ==> !Better(longer[j], group[k])
    {
      if j < |group| {
        assert longer[j] == group[j];
        BetterIsAnOrder(i, group[k], group[j]);
        BetterIsAnOrder(i, group[j], i);
      } else {
        BetterIsAnOrder(i, i, i);
      }
    }
    assert forall j :: 0 <= j < |group| ==> longer[j] == group[j];
  }

  lemma ObservationsAppend(group: seq<Insertion>, i: Insertion)
    ensures Observations(group + [i]) == Observations(group) + [i.observation]
  {
    assert (group + [i])[..|group|] == group;
  }

  lemma MergeKeepsSummary(s: Source, group: seq<Insertion>, i: Insertion)
    requires Summarizes(s, group) && i.kind == s.kind
    ensures Summarizes(Merged(s, i), group + [i])
  {
    hide UrlLen, Observations, IsBest, Preferred;
    ObservationsAppend(group, i);
    var k :| 0 <= k < |group| && TakenFrom(s, group, k);
    BestAfter(group, k, i);
    var best := if Better(i, group[k]) then |group| else k;
    assert (group + [i])[best] == if Better(i, group[k]) then i else group[k];
    assert TakenFrom(Merged(s, i), group + [i], best);
  }

  lemma OneSummarizesItself(p: Policy, i: Insertion)
    ensures Summarizes(Source(Bare(i.url), i.kind, i.confidence, [i.observation]), [i])
  {
    assert [i][..0] == [];
    assert Observations([i][..0]) == [];
    assert TakenFrom(Source(Bare(i.url), i.kind, i.confidence, [i.observation]), [i], 0);
  }

  lemma {:induction false} KeysSeenFacts(p: Policy, log: seq<Insertion>)
    ensures forall a, b :: 0 <= a < b < |KeysSeen(p, log)| ==> KeysSeen(p, log)[a] != KeysSeen(p, log)[b]
    ensures forall key :: key in KeysSeen(p, log) <==>
        exists i :: 0 <= i < |log| && Admitted(p, log[i]) && KeyOf(p, log[i]) == key
  {
    hide Admitted, KeyOf;
    if log != [] {
      var front, last := log[..|log| - 1], log[|log| - 1];
      KeysSeenFacts(p, front);
      forall key
        ensures key in KeysSeen(p, log) <==>
            exists i :: 0 <= i < |log| && Admitted(p, log[i]) && KeyOf(p, log[i]) == key
      {
        if exists i :: 0 <= i < |log| && Admitted(p, log[i]) && KeyOf(p, log[i]) == key {
          var i :| 0 <= i < |log| && Admitted(p, log[i]) && KeyOf(p, log[i]) == key;
          assert i < |front| ==> front[i] == log[i];
        }
        if key in KeysSeen(p, front) {
          var i :| 0 <= i < |front| && Admitted(p, front[i]) && KeyOf(p, front[i]) == key;
          assert log[i] == front[i];
        }
      }
    }
  }

  lemma {:induction false} UnseenHasNoGroup(p: Policy, log: seq<Insertion>, key: Key)
    requires key !in KeysSeen(p, log)
    ensures GroupOf(p, log, key) == []
  {
    hide Admitted, KeyOf;
    if log != [] {
      UnseenHasNoGroup(p, log[..|log| - 1], key);
    }
  }

  lemma {:induction false} DistinctMembers(keys: seq<Key>)
    requires forall a, b :: 0 <= a < b < |keys| ==> keys[a] != keys[b]
    ensures |Members(keys)| == |keys|
  {
    if keys != [] {
      var front, last := keys[..|keys| - 1], keys[|keys| - 1];
      DistinctMembers(front);
      assert keys == front + [last];
      assert Members(keys) == Members(front) + {last};
      assert last !in Members(front);
    }
  }

  lemma LogAppend(p: Policy, front: seq<Insertion>, i: Insertion)
    ensures KeysSeen(p, front + [i]) ==
            if Admitted(p, i) && KeyOf(p, i) !in KeysSeen(p, front) then KeysSeen(p, front) + [KeyOf(p, i)]
                else KeysSeen(p, front)
    ensures forall k :: 
              GroupOf(p, front + [i], k)
              == if Admitted(p, i) && KeyOf(p, i) == k then GroupOf(p, front, k) + [i] else GroupOf(p, front, k)
  {
    hide Admitted, KeyOf;
    assert (front + [i])[..|front|] == front;
  }

  lemma MergeReflects(p: Policy, capacity: nat, table: Table, front: seq<Insertion>, i: Insertion)
    requires Reflects(p, capacity, table, front) && Admitted(p, i) && KeyOf(p, i) in table
    ensures Reflects(p, capacity, Inserted(p, capacity, table, i), front + [i])
  {
    hide Admitted, KeyOf, Summarizes, Merged, KeysSeen, GroupOf;
    var key, next := KeyOf(p, i), Inserted(p, capacity, table, i);
    LogAppend(p, front, i);
    assert key in Members(KeysHeld(p, capacity, front));
    assert key in KeysSeen(p, front);
    GroupHasOneKind(p, table[key], front, key, i);
    MergeKeepsSummary(table[key], GroupOf(p, front, key), i);
    assert next.Keys == table.Keys;
    SameDomainSameSize(next, table);
    forall k | k in next
      ensures Summarizes(next[k], GroupOf(p, front + [i], k))
    {
      assert k != key ==> GroupOf(p, front + [i], k) == GroupOf(p, front, k);
    }
  }

  lemma AdditionReflects(p: Policy, capacity: nat, table: Table, log: seq<Insertion>, seen: seq<Key>, key: Key,
                         s: Source)
    requires table.Keys == Members(seen) && |table| == |seen| && key !in table
    requires KeysHeld(p, capacity, log) == seen + [key]
    requires Summarizes(s, GroupOf(p, log, key)) && forall k :: k in table ==> Summarizes(table[k], GroupOf(p, log, k))
    ensures Reflects(p, capacity, table[key := s], log)
  {
    hide Summarizes, KeysHeld, GroupOf;
    MembersAppend(seen, key);
    NewKeyAddsOne(table, key, s);
  }

  lemma NewKeyIsHeld(p: Policy, capacity: nat, front: seq<Insertion>, i: Insertion)
    requires |KeysHeld(p, capacity, front)| < capacity && Admitted(p, i) && KeyOf(p, i) !in KeysHeld(p, capacity, front)
    ensures KeyOf(p, i) !in KeysSeen(p, front)
    ensures KeysHeld(p, capacity, front + [i]) == KeysHeld(p, capacity, front) + [KeyOf(p, i)]
    ensures GroupOf(p, front + [i], KeyOf(p, i)) == [i]
  {
    hide Admitted, KeyOf, KeysSeen, GroupOf, KeysHeld;
    BelowCapacityAllAreHeld(p, capacity, front);
    LogAppend(p, front, i);
    AllHeldUpToCapacity(p, capacity, front + [i]);
    UnseenHasNoGroup(p, front, KeyOf(p, i));
  }

  lemma OthersStay(p: Policy, table: Table, front: seq<Insertion>, i: Insertion)
    requires KeyOf(p, i) !in table && forall k :: k in table ==> Summarizes(table[k], GroupOf(p, front, k))
    ensures forall k :: k in table ==> Summarizes(table[k], GroupOf(p, front + [i], k))
  {
    hide Admitted, KeyOf, GroupOf, Summarizes;
    LogAppend(p, front, i);
    forall k | k in table
      ensures Summarizes(table[k], GroupOf(p, front + [i], k))
    {
      assert GroupOf(p, front + [i], k) == GroupOf(p, front, k);
    }
  }

  lemma NewReflects(p: Policy, capacity: nat, table: Table, front: seq<Insertion>, i: Insertion)
    requires Reflects(p, capacity, table, front) && Admitted(p, i) && KeyOf(p, i) !in table && |table| < capacity
    ensures Reflects(p, capacity, Inserted(p, capacity, table, i), front + [i])
  {
    hide Admitted, KeyOf, Summarizes, GroupOf, KeysHeld, Members, Bare;
    var key, held := KeyOf(p, i), KeysHeld(p, capacity, front);
    InMembers(held, key);
    NewKeyIsHeld(p, capacity, front, i);
    OneSummarizesItself(p, i);
    OthersStay(p, table, front, i);
    AdditionReflects(p, capacity, table, front + [i], held, key,
                     Source(Bare(i.url), i.kind, i.confidence, [i.observation]));
  }

  lemma InMembers(keys: seq<Key>, key: Key)
    ensures key in Members(keys) <==> key in keys
  {
  }

  lemma BelowCapacityAllAreHeld(p: Policy, capacity: nat, log: seq<Insertion>)
    requires |KeysHeld(p, capacity, log)| < capacity
    ensures KeysHeld(p, capacity, log) == KeysSeen(p, log)
  {
    hide KeysSeen;
  }

  lemma AllHeldUpToCapacity(p: Policy, capacity: nat, log: seq<Insertion>)
    requires |KeysSeen(p, log)| <= capacity
    ensures KeysHeld(p, capacity, log) == KeysSeen(p, log)
  {
    hide KeysSeen;
  }

  lemma InsertionReflects(p: Policy, capacity: nat, table: Table, front: seq<Insertion>, i: Insertion)
    requires Reflects(p, capacity, table, front)
    ensures Reflects(p, capacity, Inserted(p, capacity, table, i), front + [i])
  {
    hide Admitted, KeyOf, Summarizes, KeysSeen, GroupOf, Merged, Bare;
    if Admitted(p, i) && KeyOf(p, i) in table {
      MergeReflects(p, capacity, table, front, i);
    } else if Admitted(p, i) && |table| < capacity {
      NewReflects(p, capacity, table, front, i);
    } else {
      LogAppend(p, front, i);
      assert KeysHeld(p, capacity, front + [i]) == KeysHeld(p, capacity, front);
      forall k | k in table
        ensures GroupOf(p, front + [i], k) == GroupOf(p, front, k)
      {
      }
    }
  }

  lemma SameDomainSameSize(a: Table, b: Table)
    requires a.Keys == b.Keys
    ensures |a| == |b|
  {
    assert |a| == |a.Keys| && |b| == |b.Keys|;
  }

  lemma NewKeyAddsOne(table: Table, key: Key, s: Source)
    requires key !in table
    ensures |table[key := s]| == |table| + 1
  {
    assert |table| == |table.Keys|;
    assert table[key := s].Keys == table.Keys + {key};
  }

  lemma GroupHasOneKind(p: Policy, s: Source, log: seq<Insertion>, key: Key, i: Insertion)
    requires Summarizes(s, GroupOf(p, log, key)) && KeyOf(p, i) == key
    ensures i.kind == s.kind
  {
    var group := GroupOf(p, log, key);
    var k :| 0 <= k < |group| && TakenFrom(s, group, k);
    GroupKind(p, log, key, k);
    KindNamesDiffer(i.kind, group[k].kind);
  }

  /** The accumulator holds the first keys up to its capacity, each summarizing all its insertions. */
  lemma {:induction false} AccumulatorReflectsItsLog(p: Policy, capacity: nat, log: seq<Insertion>)
    ensures Reflects(p, capacity, Accumulated(p, capacity, log), log)
  {
    hide Inserted, Summarizes, Members;
    if log == [] {
      assert Members([]) == {} by { NoMembers(); }
    } else {
      var front := log[..|log| - 1];
      AccumulatorReflectsItsLog(p, capacity, front);
      InsertionReflects(p, capacity, Accumulated(p, capacity, front), front, log[|log| - 1]);
      assert log == front + [log[|log| - 1]];
    }
  }

  lemma NoMembers()
    ensures Members([]) == {}
  {
  }

  // ----- The order of arrival

  predicate SameInsertions(a: seq<Insertion>, b: seq<Insertion>) { forall i :: i in a + b ==> i in a && i in b }

  lemma SeenInBoth(p: Policy, a: seq<Insertion>, b: seq<Insertion>)
    requires SameInsertions(a, b)
    ensures Members(KeysSeen(p, a)) == Members(KeysSeen(p, b)) && |KeysSeen(p, a)| == |KeysSeen(p, b)|
  {
    hide Admitted, KeyOf, KeysSeen;
    KeysSeenFacts(p, a);
    KeysSeenFacts(p, b);
    forall key
      ensures key in KeysSeen(p, a) <==> key in KeysSeen(p, b)
    {
      if key in KeysSeen(p, a) {
        var i :| 0 <= i < |a| && Admitted(p, a[i]) && KeyOf(p, a[i]) == key;
        assert a[i] in a + b && a[i] in b;
      }
      if key in KeysSeen(p, b) {
        var i :| 0 <= i < |b| && Admitted(p, b[i]) && KeyOf(p, b[i]) == key;
        assert b[i] in a + b && b[i] in a;
      }
    }
    DistinctMembers(KeysSeen(p, a));
    DistinctMembers(KeysSeen(p, b));
  }

  lemma {:induction false} GroupMembers(p: Policy, log: seq<Insertion>, key: Key, i: Insertion)
    ensures i in GroupOf(p, log, key) <==> i in log && Admitted(p, i) && KeyOf(p, i) == key
  {
    hide Admitted, KeyOf;
    if log != [] {
      GroupMembers(p, log[..|log| - 1], key, i);
      assert log == log[..|log| - 1] + [log[|log| - 1]];
    }
  }

  /**
   The same insertions in another order, or repeated, below capacity: the same keys and confidences, and URLs no
   better or worse.
   */
  lemma ArrivalOrderDoesNotMatter(p: Policy, capacity: nat, a: seq<Insertion>, b: seq<Insertion>, key: Key)
    requires SameInsertions(a, b) && |KeysSeen(p, a)| <= capacity
    ensures var ta, tb := Accumulated(p, capacity, a), Accumulated(p, capacity, b);
            && (key in ta <==> key in tb)
            && (key in ta ==> ta[key].confidence == tb[key].confidence && ta[key].kind == tb[key].kind
                              && !Preferred(ta[key].url, tb[key].url) && !Preferred(tb[key].url, ta[key].url))
  {
    hide Accumulated, Admitted, KeyOf, KeysSeen, GroupOf, Summarizes, Preferred;
    SeenInBoth(p, a, b);
    AccumulatorReflectsItsLog(p, capacity, a);
    AccumulatorReflectsItsLog(p, capacity, b);
    var ta, tb := Accumulated(p, capacity, a), Accumulated(p, capacity, b);
    assert KeysHeld(p, capacity, a) == KeysSeen(p, a) && KeysHeld(p, capacity, b) == KeysSeen(p, b);
    if key in ta {
      SameGroupSameSummary(p, ta[key], tb[key], a, b, key);
    }
  }

  lemma SameGroupSameSummary(p: Policy, s: Source, t: Source, a: seq<Insertion>, b: seq<Insertion>, key: Key)
    requires SameInsertions(a, b) && Summarizes(s, GroupOf(p, a, key)) && Summarizes(t, GroupOf(p, b, key))
    ensures s.confidence == t.confidence && s.kind == t.kind && !Preferred(s.url, t.url) && !Preferred(t.url, s.url)
  {
    hide Admitted, KeyOf, GroupOf, Preferred, Observations;
    var ga, gb := GroupOf(p, a, key), GroupOf(p, b, key);
    var i :| 0 <= i < |ga| && TakenFrom(s, ga, i);
    var j :| 0 <= j < |gb| && TakenFrom(t, gb, j);
    GroupMembers(p, a, key, ga[i]);
    GroupMembers(p, b, key, ga[i]);
    GroupMembers(p, a, key, gb[j]);
    GroupMembers(p, b, key, gb[j]);
    assert ga[i] in a + b && gb[j] in a + b;
    assert ga[i] in gb && gb[j] in ga;
    var m :| 0 <= m < |gb| && gb[m] == ga[i];
    var n :| 0 <= n < |ga| && ga[n] == gb[j];
    assert !Better(gb[m], gb[j]) && !Better(ga[n], ga[i]);
    KeysFixTheKind(p, ga[i], gb[j]);
  }

  lemma KeysFixTheKind(p: Policy, a: Insertion, b: Insertion)
    requires KeyOf(p, a) == KeyOf(p, b)
    ensures a.kind == b.kind
  {
    KindNamesDiffer(a.kind, b.kind);
  }

  /** The confidence kept is the greatest, and the URL kept is as good as any with that confidence. */
  lemma SummaryIsBest(p: Policy, capacity: nat, log: seq<Insertion>, key: Key, i: Insertion)
    requires key in Accumulated(p, capacity, log) && i in log && Admitted(p, i) && KeyOf(p, i) == key
    ensures var s := Accumulated(p, capacity, log)[key];
            && i.confidence <= s.confidence
            && (i.confidence == s.confidence ==> !Preferred(Bare(i.url), s.url))
  {
    hide Accumulated, Admitted, KeyOf, GroupOf, Preferred, Observations;
    AccumulatorReflectsItsLog(p, capacity, log);
    GroupMembers(p, log, key, i);
    var group := GroupOf(p, log, key);
    var k :| 0 <= k < |group| && group[k] == i;
    assert Summarizes(Accumulated(p, capacity, log)[key], group);
  }
}
