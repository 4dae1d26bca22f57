/** What canonicalizing a URL guarantees, for every URL. */
module CanonicalUrls {
  import opened Common
  import opened UrlIdentity
  import opened UrlPolicy

  /** Decoding UTF-8 leaves ASCII text as it is. */
  ghost predicate KeepsAscii(lossy: string -> string) {
    forall s: string :: (forall i :: 0 <= i < |s| ==> s[i] as int < 0x80) ==> lossy(s) == s
  }

  // ----- Printing and parsing kept pairs

  predicate PlainText(s: string) {
    forall i :: 0 <= i < |s| ==>
      'a' <= s[i] <= 'z' || 'A' <= s[i] <= 'Z' || '0' <= s[i] <= '9' || s[i] in {'-', '_', '.'}
  }

  lemma {:induction false} PlainTextPrintsAsItself(s: string)
    requires PlainText(s)
    ensures EscapeBytes(s) == s
  {
    if s != [] {
      PlainTextPrintsAsItself(s[1..]);
      assert s == [s[0]] + s[1..];
    }
  }

  lemma {:induction false} PlainTextParsesAsItself(s: string)
    requires PlainText(s)
    ensures Unescape(s) == s
  {
    if s != [] {
      PlainTextParsesAsItself(s[1..]);
      assert s == [s[0]] + s[1..];
    }
  }

  lemma ResourceKeyIsPlain(key: string)
    requires ResourceKey(key)
    ensures key != [] && forall i :: 0 <= i < |key| ==> 'a' <= key[i] <= 'z' || key[i] == '_'
  {
  }

  lemma SafePairIsPlain(p: Pair)
    requires SafePair(p)
    ensures PlainText(p.0) && PlainText(p.1) && p.0 != [] && Lower(p.0) == p.0
  {
    hide ResourceKey, Lower, ByteLen;
    ResourceKeyIsPlain(p.0);
    assert forall i :: 0 <= i < |p.0| ==> LowerChar(p.0[i]) == p.0[i];
    assert Lower(p.0) == p.0;
  }

  lemma PrintedPair(p: Pair)
    requires SafePair(p)
    ensures PrintPair(p) == p.0 + "=" + p.1
  {
    hide SafeValue, ResourceKey, EscapeBytes, Utf8;
    SafePairIsPlain(p);
    AsciiIsItself(p.0);
    AsciiIsItself(p.1);
    PlainTextPrintsAsItself(p.0);
    PlainTextPrintsAsItself(p.1);
  }

  lemma SplitAtEquals(name: string, value: string)
    requires '=' !in name
    ensures Before(name + "=" + value, '=') == name && (name + "=" + value)[|name| + 1..] == value
  {
    BeforePrefix(name, "=" + value, '=');
    assert name + "=" + value == name + ("=" + value);
    assert Before("=" + value, '=') == [];
  }

  lemma ParsedPair(lossy: string -> string, p: Pair)
    requires KeepsAscii(lossy) && SafePair(p)
    ensures ParsePair(lossy, PrintPair(p)) == p
  {
    hide SafePair, Unescape, PrintPair, Lower, Before;
    PrintedPair(p);
    SafePairIsPlain(p);
    SplitAtEquals(p.0, p.1);
    PlainTextParsesAsItself(p.0);
    PlainTextParsesAsItself(p.1);
  }

  lemma PrintedHasNoAmpersand(p: Pair)
    requires SafePair(p)
    ensures '&' !in PrintPair(p) && PrintPair(p) != []
  {
    hide SafeValue, ResourceKey, PrintPair, Lower;
    PrintedPair(p);
    SafePairIsPlain(p);
  }

  lemma OneSegment(first: string)
    requires '&' !in first && first != []
    ensures Segments(first) == [first]
  {
    assert first == first + [];
    BeforePrefix(first, [], '&');
  }

  lemma BeforeAmpersand(first: string, rest: string)
    requires '&' !in first
    ensures Before(first + "&" + rest, '&') == first
  {
    assert first + "&" + rest == first + ("&" + rest);
    assert Before("&" + rest, '&') == [];
    BeforePrefix(first, "&" + rest, '&');
  }

  lemma FirstSegment(first: string, rest: string)
    requires '&' !in first
    ensures Segments(first + "&" + rest) == (if first == [] then [] else [first]) + Segments(rest)
  {
    var query := first + "&" + rest;
    hide Before;
    BeforeAmpersand(first, rest);
    assert query[|first| + 1..] == rest;
  }

  predicate AllSafe(pairs: seq<Pair>) { forall i :: 0 <= i < |pairs| ==> SafePair(pairs[i]) }

  /** Printing kept pairs and parsing the result gives them back. */
  lemma {:induction false} PrintThenParse(lossy: string -> string, pairs: seq<Pair>)
    requires KeepsAscii(lossy) && AllSafe(pairs)
    ensures ParseSegments(lossy, Segments(PrintQuery(pairs))) == pairs
  {
    hide SafePair, PrintPair, Segments, KeepsAscii, ParsePair;
    if pairs == [] {
      NoSegments();
    } else {
      var first, rest := PrintPair(pairs[0]), pairs[1..];
      PrintedHasNoAmpersand(pairs[0]);
      ParsedPair(lossy, pairs[0]);
      assert pairs == [pairs[0]] + rest;
      PrintThenParse(lossy, rest);
      if rest == [] {
        OneSegment(first);
        assert [first][1..] == [];
      } else {
        FirstSegment(first, PrintQuery(rest));
        assert Segments(PrintQuery(pairs))[1..] == Segments(PrintQuery(rest));
      }
    }
  }

  lemma NoSegments()
    ensures Segments([]) == []
  {
  }

  // ----- What is kept is safe, and safe pairs are kept

  lemma {:induction false} SafeOnesMembers(pairs: seq<Pair>, p: Pair)
    ensures p in SafeOnes(pairs) <==> SafePair(p) && exists i :: 0 <= i < |pairs| && Trimmed(pairs[i]) == p
  {
    hide SafePair, Trimmed;
    if pairs != [] {
      SafeOnesMembers(pairs[1..], p);
      assert pairs == [pairs[0]] + pairs[1..];
      if exists i :: 0 <= i < |pairs[1..]| && Trimmed(pairs[1..][i]) == p {
        var i :| 0 <= i < |pairs[1..]| && Trimmed(pairs[1..][i]) == p;
        assert pairs[i + 1] == pairs[1..][i];
      }
      if exists i :: 0 <= i < |pairs| && Trimmed(pairs[i]) == p {
        var i :| 0 <= i < |pairs| && Trimmed(pairs[i]) == p;
        assert i > 0 ==> pairs[1..][i - 1] == pairs[i];
      }
    }
  }

  lemma SafePairTrims(p: Pair)
    requires SafePair(p)
    ensures Trimmed(p) == p
  {
    hide ResourceKey, Trim, Lower;
    SafePairIsPlain(p);
    TrimOfTrimmed(p.0);
    TrimOfTrimmed(p.1);
  }

  lemma {:induction false} SafePairsAreKept(pairs: seq<Pair>)
    requires AllSafe(pairs)
    ensures SafeOnes(pairs) == pairs && Recognized(pairs) == pairs
  {
    hide Trimmed, ResourceKey, SafeValue;
    if pairs != [] {
      SafePairTrims(pairs[0]);
      SafePairsAreKept(pairs[1..]);
      assert pairs == [pairs[0]] + pairs[1..];
    }
  }

  lemma ResourcePairsAreSafe(lossy: string -> string, url: Url)
    ensures AllSafe(ResourcePairs(lossy, url)) && Ascending(ResourcePairs(lossy, url)) &&
        |ResourcePairs(lossy, url)| <= MAX_PAIRS
  {
    hide SafePair, QueryPairs, SafeOnes, SortedOnce, PairLess;
    var pairs := QueryPairs(lossy, url);
    var r := SortedOnce(SafeOnes(pairs));
    forall i | 0 <= i < |r|
      ensures SafePair(r[i])
    {
      assert r[i] in Members(SafeOnes(pairs));
      SafeOnesMembers(pairs, r[i]);
    }
  }

  lemma SortedStaysSorted(s: seq<Pair>)
    requires Ascending(s)
    ensures SortedOnce(s) == s
  {
    AscendingIsUnique(SortedOnce(s), s);
  }

  /** Canonicalizing leaves the query's kept pairs, and reading it again finds exactly those. */
  lemma CanonicalPairs(lossy: string -> string, url: Url)
    requires KeepsAscii(lossy)
    ensures QueryPairs(lossy, Canonical(lossy, url)) == ResourcePairs(lossy, url)
  {
    hide KeepsAscii, ResourcePairs, AllSafe, Segments, Ascending;
    ResourcePairsAreSafe(lossy, url.(fragment := None));
    SameQuerySamePairs(lossy, url, url.(fragment := None));
    PrintThenParse(lossy, ResourcePairs(lossy, url));
  }

  lemma SameQuerySamePairs(lossy: string -> string, a: Url, b: Url)
    requires a.query == b.query
    ensures ResourcePairs(lossy, a) == ResourcePairs(lossy, b)
  {
  }

  lemma CanonicalizingIsIdempotent(lossy: string -> string, url: Url)
    requires KeepsAscii(lossy)
    ensures Canonical(lossy, Canonical(lossy, url)) == Canonical(lossy, url)
  {
    hide KeepsAscii, QueryPairs, SafeOnes, SortedOnce, PrintQuery, SafePair, PairLess;
    var once := Canonical(lossy, url);
    var pairs := ResourcePairs(lossy, url);
    SameQuerySamePairs(lossy, url, url.(fragment := None));
    SameQuerySamePairs(lossy, once, once.(fragment := None));
    CanonicalPairs(lossy, url);
    ResourcePairsAreSafe(lossy, url);
    SafePairsAreKept(pairs);
    SortedStaysSorted(pairs);
  }

  /** A canonical URL never has an invalid resource query. */
  lemma CanonicalIsValid(lossy: string -> string, url: Url)
    requires KeepsAscii(lossy)
    ensures !InvalidResourceQuery(lossy, Canonical(lossy, url))
  {
    hide KeepsAscii, QueryPairs, SortedOnce, Canonical, ResourceKey, SafeValue, PairLess, ResourcePairs, Recognized;
    var pairs := ResourcePairs(lossy, url);
    CanonicalPairs(lossy, url);
    ResourcePairsAreSafe(lossy, url);
    SafePairsAreKept(pairs);
    SortedStaysSorted(pairs);
  }

  // ----- What does not matter

  /** Two URLs with the same base and the same set of safe fields have the same canonical URL. */
  lemma OnlySafeFieldsMatter(lossy: string -> string, a: Url, b: Url)
    requires a.base == b.base
    requires Members(SafeOnes(QueryPairs(lossy, a))) == Members(SafeOnes(QueryPairs(lossy, b)))
    ensures Canonical(lossy, a) == Canonical(lossy, b)
  {
    hide QueryPairs, SafeOnes, SortedOnce, PrintQuery;
    AscendingIsUnique(SortedOnce(SafeOnes(QueryPairs(lossy, a))), SortedOnce(SafeOnes(QueryPairs(lossy, b))));
    SameQuerySamePairs(lossy, a, a.(fragment := None));
    SameQuerySamePairs(lossy, b, b.(fragment := None));
  }

  lemma FragmentDoesNotMatter(lossy: string -> string, url: Url, fragment: Option<string>)
    ensures Canonical(lossy, url.(fragment := fragment)) == Canonical(lossy, url)
  {
    SameQuerySamePairs(lossy, url, url.(fragment := fragment));
  }

  function Pieces(url: Url): seq<string> { if url.query.None? then [] else Segments(url.query.value) }

  lemma {:induction false} ParsedMembers(lossy: string -> string, segments: seq<string>, p: Pair)
    ensures p in SafeOnes(ParseSegments(lossy, segments)) <==>
            SafePair(p) && exists i :: 0 <= i < |segments| && Trimmed(ParsePair(lossy, segments[i])) == p
  {
    hide SafePair, Trimmed, ParsePair;
    if segments != [] {
      ParsedMembers(lossy, segments[1..], p);
      var rest := segments[1..];
      if exists i :: 0 <= i < |rest| && Trimmed(ParsePair(lossy, rest[i])) == p {
        var i :| 0 <= i < |rest| && Trimmed(ParsePair(lossy, rest[i])) == p;
        assert segments[i + 1] == rest[i];
      }
      if exists i :: 0 <= i < |segments| && Trimmed(ParsePair(lossy, segments[i])) == p {
        var i :| 0 <= i < |segments| && Trimmed(ParsePair(lossy, segments[i])) == p;
        assert i > 0 ==> rest[i - 1] == segments[i];
      }
      ParseOneMore(lossy, segments);
    }
  }

  lemma ParseOneMore(lossy: string -> string, segments: seq<string>)
    requires segments != []
    ensures var first := Trimmed(ParsePair(lossy, segments[0]));
            SafeOnes(ParseSegments(lossy, segments))
            == (if SafePair(first) then [first] else []) + SafeOnes(ParseSegments(lossy, segments[1..]))
  {
    hide SafePair, Trimmed, ParsePair;
    var pairs := ParseSegments(lossy, segments);
    assert pairs[1..] == ParseSegments(lossy, segments[1..]);
  }

  predicate Ignored(lossy: string -> string, segment: string) { !SafePair(Trimmed(ParsePair(lossy, segment))) }

  /**
   Reordering the fields, repeating some, and adding or removing ignored ones all leave the canonical URL alone:
   it is enough that each field of one URL is ignored or is a field of the other.
   */
  lemma OrderAndNoiseDoNotMatter(lossy: string -> string, a: Url, b: Url)
    requires a.base == b.base
    requires forall s :: s in Pieces(a) ==> s in Pieces(b) || Ignored(lossy, s)
    requires forall s :: s in Pieces(b) ==> s in Pieces(a) || Ignored(lossy, s)
    ensures Canonical(lossy, a) == Canonical(lossy, b)
  {
    hide Segments, SafeOnes, SafePair, Trimmed, ParsePair, Canonical;
    forall p
      ensures p in SafeOnes(QueryPairs(lossy, a)) <==> p in SafeOnes(QueryPairs(lossy, b))
    {
      PiecesDecide(lossy, a, p);
      PiecesDecide(lossy, b, p);
    }
    OnlySafeFieldsMatter(lossy, a, b);
  }

  lemma PiecesDecide(lossy: string -> string, url: Url, p: Pair)
    ensures p in SafeOnes(QueryPairs(lossy, url)) <==>
        SafePair(p) && exists s :: s in Pieces(url) && Trimmed(ParsePair(lossy, s)) == p
  {
    hide Segments, SafePair, Trimmed, ParsePair;
    ParsedMembers(lossy, Pieces(url), p);
    assert url.query.None? ==> QueryPairs(lossy, url) == ParseSegments(lossy, Pieces(url));
  }

  lemma OneOrNoSegment(query: string)
    requires '&' !in query
    ensures Segments(query) == if query == [] then [] else [query]
  {
    if query != [] {
      OneSegment(query);
    }
  }

  /** Appending a field to the query text adds its pieces. */
  lemma {:induction false} AppendedField(query: string, more: string)
    ensures Segments(query + "&" + more) == Segments(query) + Segments(more)
    decreases |query|
  {
    hide Segments;
    var first := Before(query, '&');
    hide Before;
    if |first| == |query| {
      OneOrNoSegment(query);
      FirstSegment(query, more);
    } else {
      var rest := query[|first| + 1..];
      assert query == first + "&" + rest;
      assert query + "&" + more == first + "&" + (rest + "&" + more);
      FirstSegment(first, rest);
      FirstSegment(first, rest + "&" + more);
      AppendedField(rest, more);
    }
  }

  /** A tracking parameter added to a URL does not change its canonical form. */
  lemma AddedNoiseDoesNotMatter(lossy: string -> string, url: Url, noise: string)
    requires url.query.Some? && forall s :: s in Segments(noise) ==> Ignored(lossy, s)
    ensures Canonical(lossy, url.(query := Some(url.query.value + "&" + noise))) == Canonical(lossy, url)
  {
    hide Segments, Ignored, Canonical;
    AppendedField(url.query.value, noise);
    OrderAndNoiseDoNotMatter(lossy, url.(query := Some(url.query.value + "&" + noise)), url);
  }

  /** Nothing of the query is kept exactly when no field is safe or more than four different ones are. */
  lemma QueryIsDroppedExactlyWhen(lossy: string -> string, url: Url)
    ensures var safe := Members(SafeOnes(QueryPairs(lossy, url)));
            Canonical(lossy, url).query.None? <==> safe == {} || |safe| > MAX_PAIRS
  {
    hide QueryPairs, SafeOnes, SortedOnce, PrintQuery;
    SameQuerySamePairs(lossy, url, url.(fragment := None));
    var kept := SortedOnce(SafeOnes(QueryPairs(lossy, url)));
    AscendingSize(kept);
    assert kept != [] ==> kept[0] in Members(kept);
  }

  lemma {:induction false} AscendingSize(s: seq<Pair>)
    requires Ascending(s)
    ensures |Members(s)| == |s|
  {
    if s != [] {
      RestHasTheRest(s);
      AscendingSize(s[1..]);
      assert s[0] in Members(s);
    }
  }
}
