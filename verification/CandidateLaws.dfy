/** What the accumulator keeps of a log of insertions, and how it lists it. */
module CandidateLaws {
  import opened Common
  import opened UrlPolicy
  import opened Candidates

  // ----- Which insertions count for a key

  predicate Names(kind: Kind, name: string) {
    match kind
    case Rss => name == "rss"
    case Atom => name == "atom"
    case Sitemap => name == "sitemap"
    case Html => name == "html"
    case Browser => name == "browser"
  }

  /** A sitemap, or a URL that the policy does not ignore, counts for its kind and canonical key, fragments aside. */
  predicate CountsFor(p: Policy, i: Insertion, key: Key) {
    var url := Url(i.url.base, i.url.query, None);
    (i.kind == Sitemap || !p.ignored(url)) && Names(i.kind, key.0) && key.1 == p.canonical(url, i.kind)
  }

  lemma CountsExactlyWhen(p: Policy, i: Insertion, key: Key)
    ensures CountsFor(p, i, key) <==> Admitted(p, i) && KeyOf(p, i) == key
  {
  }

  // ----- Which URL is better

  function UrlText(url: Url): string { url.base + if url.query.Some? then "?" + url.query.value else "" }

  /** Without a query before with one, then by the length of the text. */
  predicate Nicer(a: Url, b: Url) {
    if a.query.None? != b.query.None? then a.query.None? else ByteLen(UrlText(a)) < ByteLen(UrlText(b))
  }

  lemma NicerIsPreferred(a: Url, b: Url)
    ensures Nicer(a, b) <==> Preferred(a, b)
  {
    TextLength(a);
    TextLength(b);
  }

  lemma TextLength(url: Url)
    ensures ByteLen(UrlText(url)) == UrlLen(url)
  {
    if url.query.Some? {
      ByteLenConcat(url.base, "?" + url.query.value);
      ByteLenConcat("?", url.query.value);
    } else {
      assert UrlText(url) == url.base;
    }
  }

  /** Surer, or as sure with a nicer URL. */
  predicate Beats(a: Insertion, b: Insertion) {
    a.confidence > b.confidence ||
    (a.confidence == b.confidence && Nicer(a.url.(fragment := None), b.url.(fragment := None)))
  }

  lemma BeatsIsBetter(a: Insertion, b: Insertion)
    ensures Beats(a, b) <==> Better(a, b)
  {
    NicerIsPreferred(Bare(a.url), Bare(b.url));
  }

  // ----- Where the insertions of a key are in the log

  lemma {:induction false} GroupAt(p: Policy, log: seq<Insertion>, key: Key, j: nat)
    requires j < |log| && CountsFor(p, log[j], key)
    ensures var n := |GroupOf(p, log[..j], key)|; n < |GroupOf(p, log, key)| && GroupOf(p, log, key)[n] == log[j]
  {
    hide CountsFor, Admitted, KeyOf;
    CountsExactlyWhen(p, log[j], key);
    var front := log[..|log| - 1];
    if j < |front| {
      GroupAt(p, front, key, j);
      assert front[..j] == log[..j];
    }
  }

  lemma {:induction false} GroupGrows(p: Policy, log: seq<Insertion>, key: Key, j: nat, k: nat)
    requires j < k <= |log| && CountsFor(p, log[j], key)
    ensures |GroupOf(p, log[..j], key)| < |GroupOf(p, log[..k], key)|
  {
    hide CountsFor, GroupOf;
    GroupAt(p, log[..k], key, j);
    assert log[..k][..j] == log[..j];
  }

  lemma {:induction false} GroupIndex(p: Policy, log: seq<Insertion>, key: Key, g: nat) returns (k: nat)
    requires g < |GroupOf(p, log, key)|
    ensures k < |log| && CountsFor(p, log[k], key) && log[k] == GroupOf(p, log, key)[g]
    ensures |GroupOf(p, log[..k], key)| == g
  {
    hide CountsFor, Admitted, KeyOf;
    var front, last := log[..|log| - 1], log[|log| - 1];
    CountsExactlyWhen(p, last, key);
    if g < |GroupOf(p, front, key)| {
      k := GroupIndex(p, front, key, g);
      assert front[..k] == log[..k];
    } else {
      k := |log| - 1;
    }
  }

  /**
   A candidate is the earliest of the best insertions of its key: it has the URL, kind and confidence of one that none
   beats and that beats every earlier one, and the observations of all of them.
   */
  lemma CandidateIsTheFirstBest(p: Policy, capacity: nat, log: seq<Insertion>, key: Key) returns (k: nat)
    requires key in Accumulated(p, capacity, log)
    ensures k < |log| && CountsFor(p, log[k], key)
    ensures var s := Accumulated(p, capacity, log)[key];
            s.url == log[k].url.(fragment := None) && s.kind == log[k].kind && s.confidence == log[k].confidence
    ensures forall j :: 0 <= j < |log| && CountsFor(p, log[j], key) ==>
              !Beats(log[j], log[k]) && (j < k ==> Beats(log[k], log[j]))
  {
    hide Accumulated, CountsFor, GroupOf, Beats, Better, Observations;
    AccumulatorReflectsItsLog(p, capacity, log);
    var group := GroupOf(p, log, key);
    var g :| 0 <= g < |group| && TakenFrom(Accumulated(p, capacity, log)[key], group, g);
    k := GroupIndex(p, log, key, g);
    forall j | 0 <= j < |log| && CountsFor(p, log[j], key)
      ensures !Beats(log[j], log[k]) && (j < k ==> Beats(log[k], log[j]))
    {
      GroupAt(p, log, key, j);
      BeatsIsBetter(log[j], log[k]);
      BeatsIsBetter(log[k], log[j]);
      if j < k { GroupGrows(p, log, key, j, k); }
    }
  }

  /** The observations of a candidate: those of the insertions of its key, in order and with repetitions. */
  lemma ObservationsAreAll(p: Policy, capacity: nat, log: seq<Insertion>, key: Key, j: nat)
    requires key in Accumulated(p, capacity, log) && j < |log| && CountsFor(p, log[j], key)
    ensures var seen, n := Accumulated(p, capacity, log)[key].observations, |GroupOf(p, log[..j], key)|;
            n < |seen| == |GroupOf(p, log, key)| && seen[n] == log[j].observation
  {
    hide Accumulated, CountsFor, GroupOf, IsBest;
    AccumulatorReflectsItsLog(p, capacity, log);
    GroupAt(p, log, key, j);
    ObservationAt(GroupOf(p, log, key), |GroupOf(p, log[..j], key)|);
  }

  lemma {:induction false} ObservationAt(group: seq<Insertion>, n: nat)
    ensures |Observations(group)| == |group|
    ensures n < |group| ==> Observations(group)[n] == group[n].observation
  {
    if group != [] { ObservationAt(group[..|group| - 1], n); }
  }

  /** The keys held are the first ones to arrive, as many as there is room for. */
  lemma FirstKeysAreHeld(p: Policy, capacity: nat, log: seq<Insertion>, key: Key, j: nat)
    requires j < |log| && CountsFor(p, log[j], key) && forall i :: 0 <= i < j ==> !CountsFor(p, log[i], key)
    ensures key in Accumulated(p, capacity, log) <==> |KeysBefore(p, log, j)| < capacity
  {
    hide Accumulated, CountsFor, GroupOf, Summarizes, KeysSeen, KeysBefore;
    AccumulatorReflectsItsLog(p, capacity, log);
    var before := log[..j];
    KeysSeenAre(p, before);
    KeysSeenFacts(p, before);
    DistinctMembers(KeysSeen(p, before));
    assert KeysBefore(p, log, j) == KeysBefore(p, before, j) by { SameKeysBefore(p, log, j); }
    SeenAt(p, log, key, j);
    KeysSeenFacts(p, log);
  }

  function KeysBefore(p: Policy, log: seq<Insertion>, j: nat): set<Key> {
    set i | 0 <= i < |log| && i < j && Admitted(p, log[i]) :: KeyOf(p, log[i])
  }

  lemma SameKeysBefore(p: Policy, log: seq<Insertion>, j: nat)
    requires j <= |log|
    ensures KeysBefore(p, log, j) == KeysBefore(p, log[..j], j)
  {
    hide Admitted, KeyOf;
    forall k
      ensures k in KeysBefore(p, log, j) <==> k in KeysBefore(p, log[..j], j)
    {
      if k in KeysBefore(p, log, j) {
        var i :| 0 <= i < |log| && i < j && Admitted(p, log[i]) && KeyOf(p, log[i]) == k;
        assert log[..j][i] == log[i];
      }
    }
  }

  lemma KeysSeenAre(p: Policy, log: seq<Insertion>)
    ensures Members(KeysSeen(p, log)) == KeysBefore(p, log, |log|)
  {
    hide Admitted, KeyOf, KeysSeen;
    KeysSeenFacts(p, log);
  }

  /** A key arrives after the keys of all earlier insertions. */
  lemma {:induction false} SeenAt(p: Policy, log: seq<Insertion>, key: Key, j: nat)
    requires j < |log| && CountsFor(p, log[j], key) && forall i :: 0 <= i < j ==> !CountsFor(p, log[i], key)
    ensures var n := |KeysSeen(p, log[..j])|; n < |KeysSeen(p, log)| && KeysSeen(p, log)[n] == key
  {
    hide CountsFor, Admitted, KeyOf;
    var front, last := log[..|log| - 1], log[|log| - 1];
    CountsExactlyWhen(p, log[j], key);
    if j < |front| {
      SeenAt(p, front, key, j);
      assert front[..j] == log[..j];
    } else {
      KeysSeenFacts(p, front);
      if key in KeysSeen(p, front) {
        var i :| 0 <= i < |front| && Admitted(p, front[i]) && KeyOf(p, front[i]) == key;
        CountsExactlyWhen(p, log[i], key);
      }
    }
  }

  // ----- The list

  /** The list has a row for each candidate, in the order of kind names and keys; only a page loses its query. */
  lemma ListedOnceInOrder(candidates: Table, keys: seq<Key>, r: seq<Source>, key: Key)
    requires InKeyOrder(candidates, keys, r)
    ensures |r| == |candidates| == |keys|
    ensures forall i, j :: 0 <= i < j < |keys| ==> PairLess(keys[i], keys[j])
    ensures key in candidates <==> exists i :: 0 <= i < |keys| && keys[i] == key
    ensures forall i :: 0 <= i < |keys| && keys[i] == key ==>
              && key in candidates
              && var s := candidates[key];
                 && r[i].kind == s.kind && r[i].confidence == s.confidence && r[i].observations == s.observations
                 && r[i].url.base == s.url.base && r[i].url.fragment == s.url.fragment
                 && r[i].url.query == (if s.kind == Html then None else s.url.query)
  {
    hide PairLess;
    assert forall i, j :: 0 <= i < j < |keys| ==> keys[i] != keys[j] by {
      forall i, j | 0 <= i < j < |keys|
        ensures keys[i] != keys[j]
      {
        PairOrder(keys[i], keys[j]);
      }
    }
    DistinctMembers(keys);
    assert |candidates| == |candidates.Keys|;
    assert key in candidates <==> key in Members(keys);
  }
}
