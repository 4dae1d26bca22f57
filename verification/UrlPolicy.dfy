/**
 Canonical URLs: the fragment goes, and of the query only a few recognized and safe fields stay,
 sorted and without duplicates.  Query strings are parsed and printed as
 application/x-www-form-urlencoded (sections 5.1 and 5.2 of the WHATWG URL Standard).
 */
module UrlPolicy {
  import opened Common
  import opened UrlIdentity

  const RESOURCE_QUERY_KEYS := {
    "article", "article_id", "articleid", "cid", "content", "content_id", "contentid", "id", "item",
    "item_id", "itemid", "news_id", "newsid", "nid", "p", "page_id", "pageid", "post", "post_id",
    "postid", "record_id", "recordid", "release_id", "releaseid", "story", "story_id", "storyid"}

  const MAX_VALUE_BYTES := 128
  const MAX_PAIRS: nat := 4

  type Pair = (string, string)

  /** `base` is everything before the query. */
  datatype Url = Url(base: string, query: Option<string>, fragment: Option<string>)

  // ----- Parsing and printing a query

  function HexValue(c: char): Option<nat> {
    if '0' <= c <= '9' then Some(c as nat - '0' as nat)
    else if 'a' <= c <= 'f' then Some(c as nat - 'a' as nat + 10)
    else if 'A' <= c <= 'F' then Some(c as nat - 'A' as nat + 10)
    else None
  }

  /** A plus sign is a space and %XX is a byte; any other percent sign stands for itself. */
  function Unescape(s: string): string {
    if s == [] then []
    else if s[0] == '+' then " " + Unescape(s[1..])
    else if s[0] == '%' && |s| >= 3 && HexValue(s[1]).Some? && HexValue(s[2]).Some? then
      [(HexValue(s[1]).value * 16 + HexValue(s[2]).value) as char] + Unescape(s[3..])
    else [s[0]] + Unescape(s[1..])
  }

  /** `lossy` decodes UTF-8 bytes, replacing what is not valid. */
  function ParsePair(lossy: string -> string, segment: string): Pair {
    var name := Before(segment, '=');
    (lossy(Unescape(name)), lossy(Unescape(if |name| == |segment| then [] else segment[|name| + 1..])))
  }

  /** The pieces between ampersands, without empty ones. */
  function Segments(query: string): seq<string>
    decreases |query|
  {
    var first := Before(query, '&');
    var rest := if |first| == |query| then [] else Segments(query[|first| + 1..]);
    if first == [] then rest else [first] + rest
  }

  function ParseSegments(lossy: string -> string, segments: seq<string>): seq<Pair> {
    if segments == [] then [] else [ParsePair(lossy, segments[0])] + ParseSegments(lossy, segments[1..])
  }

  function QueryPairs(lossy: string -> string, url: Url): seq<Pair> {
    if url.query.None? then [] else ParseSegments(lossy, Segments(url.query.value))
  }

  predicate Unreserved(c: char) {
    'a' <= c <= 'z' || 'A' <= c <= 'Z' || '0' <= c <= '9' || c == '*' || c == '-' || c == '.' || c == '_'
  }

  function HexDigit(n: nat): char
    requires n < 16
  {
    if n < 10 then (n + '0' as nat) as char else (n - 10 + 'A' as nat) as char
  }

  function EscapeByte(c: char): string {
    if Unreserved(c) then [c] else if c == ' ' then "+"
        else ['%', HexDigit(c as nat / 16 % 16), HexDigit(c as nat % 16)]
  }

  function EscapeBytes(b: string): string {
    if b == [] then [] else EscapeByte(b[0]) + EscapeBytes(b[1..])
  }

  function PrintPair(p: Pair): string { EscapeBytes(Utf8(p.0)) + "=" + EscapeBytes(Utf8(p.1)) }

  function PrintQuery(pairs: seq<Pair>): string {
    if pairs == [] then []
    else if |pairs| == 1 then PrintPair(pairs[0])
    else PrintPair(pairs[0]) + "&" + PrintQuery(pairs[1..])
  }

  // ----- Which fields identify a resource

  predicate SafeValue(value: string) {
    value != [] && ByteLen(value) <= MAX_VALUE_BYTES &&
    forall i :: 0 <= i < |value| ==>
      'a' <= value[i] <= 'z' || 'A' <= value[i] <= 'Z' || '0' <= value[i] <= '9' || value[i] in {'-', '_', '.'}
  }

  predicate ResourceKey(key: string) { key in RESOURCE_QUERY_KEYS }

  predicate SafePair(p: Pair) { ResourceKey(p.0) && SafeValue(p.1) }

  function Trimmed(p: Pair): Pair { (Lower(Trim(p.0)), Trim(p.1)) }

  function Recognized(pairs: seq<Pair>): seq<Pair> {
    if pairs == [] then []
    else (if ResourceKey(Trimmed(pairs[0]).0) then [Trimmed(pairs[0])] else []) + Recognized(pairs[1..])
  }

  function SafeOnes(pairs: seq<Pair>): seq<Pair> {
    if pairs == [] then []
    else (if SafePair(Trimmed(pairs[0])) then [Trimmed(pairs[0])] else []) + SafeOnes(pairs[1..])
  }

  // ----- Order

  predicate PairLess(a: Pair, b: Pair) { StringLess(a.0, b.0) || (a.0 == b.0 && StringLess(a.1, b.1)) }

  lemma PairOrder(a: Pair, b: Pair)
    ensures !PairLess(a, a)
    ensures a == b || PairLess(a, b) || PairLess(b, a)
  {
    StringOrder(a.0, b.0);
    StringOrder(a.1, b.1);
  }

  lemma PairTransitive(a: Pair, b: Pair, c: Pair)
    requires PairLess(a, b) && PairLess(b, c)
    ensures PairLess(a, c)
  {
    StringOrder(a.0, b.0);
    StringOrder(b.0, b.0);
    if a.0 == b.0 == c.0 {
      StringTransitive(a.1, b.1, c.1);
    } else if StringLess(a.0, b.0) && StringLess(b.0, c.0) {
      StringTransitive(a.0, b.0, c.0);
    }
  }

  function Members(s: seq<Pair>): set<Pair> { set p | p in s }

  predicate Ascending(s: seq<Pair>) { forall i, j :: 0 <= i < j < |s| ==> PairLess(s[i], s[j]) }

  lemma MembersPrepend(p: Pair, s: seq<Pair>)
    ensures Members([p] + s) == {p} + Members(s)
  {
  }

  /** Puts a pair in its place unless it is there already. */
  function Insert(p: Pair, s: seq<Pair>): seq<Pair> {
    if s == [] then [p]
    else if p == s[0] then s
    else if PairLess(p, s[0]) then [p] + s
    else [s[0]] + Insert(p, s[1..])
  }

  lemma {:induction false} InsertKeepsOrder(p: Pair, s: seq<Pair>)
    requires Ascending(s)
    ensures Ascending(Insert(p, s)) && Members(Insert(p, s)) == Members(s) + {p}
  {
    hide PairLess, Members;
    var none: seq<Pair> := [];
    assert [p] + none == [p];
    MembersPrepend(p, s);
    MembersPrepend(p, none);
    if s != [] {
      PairOrder(p, s[0]);
      assert s == [s[0]] + s[1..];
      MembersPrepend(s[0], s[1..]);
      if PairLess(p, s[0]) {
        BelowAll(p, s);
      } else if p != s[0] {
        InsertKeepsOrder(p, s[1..]);
        AboveHead(s[0], Insert(p, s[1..]), p, s[1..]);
        MembersPrepend(s[0], Insert(p, s[1..]));
      }
    }
  }

  lemma BelowAll(p: Pair, s: seq<Pair>)
    requires Ascending(s) && s != [] && PairLess(p, s[0])
    ensures forall j :: 0 <= j < |s| ==> PairLess(p, s[j])
  {
    forall j | 0 < j < |s|
      ensures PairLess(p, s[j])
    {
      PairTransitive(p, s[0], s[j]);
    }
  }

  lemma AboveHead(head: Pair, rest: seq<Pair>, p: Pair, tail: seq<Pair>)
    requires Ascending(rest) && Members(rest) == Members(tail) + {p}
    requires PairLess(head, p) && forall j :: 0 <= j < |tail| ==> PairLess(head, tail[j])
    ensures Ascending([head] + rest)
  {
    hide PairLess;
    forall j | 0 <= j < |rest|
      ensures PairLess(head, rest[j])
    {
      assert rest[j] in Members(tail) + {p};
    }
  }

  /** Sorted, and each pair once. */
  function SortedOnce(s: seq<Pair>): (r: seq<Pair>)
    ensures Ascending(r) && Members(r) == Members(s)
  {
    if s == [] then [] else
      var rest := SortedOnce(s[1..]);
      InsertKeepsOrder(s[0], rest);
      MembersPrepend(s[0], s[1..]);
      assert s == [s[0]] + s[1..];
      Insert(s[0], rest)
  }

  /** The order is total, so the sorted list is a function of the set of pairs. */
  lemma {:induction false} AscendingIsUnique(a: seq<Pair>, b: seq<Pair>)
    requires Ascending(a) && Ascending(b) && Members(a) == Members(b)
    ensures a == b
  {
    hide PairLess;
    if a != [] {
      assert a[0] in Members(b);
    }
    if b != [] {
      assert b[0] in Members(a);
    }
    if a != [] && b != [] {
      HeadIsLeast(a, b);
      HeadIsLeast(b, a);
      PairOrder(a[0], b[0]);
      if PairLess(a[0], b[0]) && PairLess(b[0], a[0]) {
        PairTransitive(a[0], b[0], a[0]);
      }
      RestHasTheRest(a);
      RestHasTheRest(b);
      AscendingIsUnique(a[1..], b[1..]);
      assert a == [a[0]] + a[1..] && b == [b[0]] + b[1..];
    }
  }

  lemma HeadIsLeast(a: seq<Pair>, b: seq<Pair>)
    requires Ascending(a) && a != [] && b != [] && Members(a) == Members(b)
    ensures a[0] == b[0] || PairLess(a[0], b[0])
  {
    assert b[0] in Members(a);
    var i :| 0 <= i < |a| && a[i] == b[0];
  }

  lemma RestHasTheRest(a: seq<Pair>)
    requires Ascending(a) && a != []
    ensures Ascending(a[1..]) && Members(a[1..]) == Members(a) - {a[0]}
  {
    PairOrder(a[0], a[0]);
    assert a == [a[0]] + a[1..];
    assert forall i :: 0 < i < |a| ==> a[i] != a[0];
  }

  // ----- The specification

  function ResourcePairs(lossy: string -> string, url: Url): seq<Pair> {
    var kept := SortedOnce(SafeOnes(QueryPairs(lossy, url)));
    if |kept| <= MAX_PAIRS then kept else []
  }

  predicate InvalidResourceQuery(lossy: string -> string, url: Url) {
    var recognized := Recognized(QueryPairs(lossy, url));
    (exists i :: 0 <= i < |recognized| && !SafeValue(recognized[i].1)) || |SortedOnce(recognized)| > MAX_PAIRS
  }

  function Canonical(lossy: string -> string, url: Url): Url {
    var pairs := ResourcePairs(lossy, url.(fragment := None));
    Url(url.base, if pairs == [] then None else Some(PrintQuery(pairs)), None)
  }

  // ----- The code

  /** In ascending order, with repetitions. */
  predicate SortedUpTo(s: seq<Pair>, n: nat)
    requires n <= |s|
  {
    forall i, j :: 0 <= i < j < n ==> s[i] == s[j] || PairLess(s[i], s[j])
  }

  /** In order but for the pair at j, which goes no later than where it is. */
  predicate SortedBut(s: seq<Pair>, n: nat, j: nat)
    requires j < n <= |s|
  {
    forall p, q :: 0 <= p < q < n && q != j ==> s[p] == s[q] || PairLess(s[p], s[q])
  }

  lemma InPlace(s: seq<Pair>, n: nat, j: nat)
    requires j < n <= |s| && SortedBut(s, n, j) && (j > 0 ==> !PairLess(s[j], s[j - 1]))
    ensures SortedUpTo(s, n)
  {
    hide PairLess;
    if j > 0 {
      PairOrder(s[j], s[j - 1]);
      forall p | 0 <= p < j - 1
        ensures s[p] == s[j] || PairLess(s[p], s[j])
      {
        if s[p] != s[j - 1] && s[j - 1] != s[j] {
          PairTransitive(s[p], s[j - 1], s[j]);
        }
      }
    }
  }

  lemma SwapDown(s: seq<Pair>, n: nat, j: nat)
    requires 0 < j < n <= |s| && SortedBut(s, n, j) && PairLess(s[j], s[j - 1])
    ensures SortedBut(s[j := s[j - 1]][j - 1 := s[j]], n, j - 1)
  {
    hide PairLess;
  }

  /** Vec::sort on the pairs, in place. */
  method SortPairs(a: array<Pair>)
    modifies a
    ensures multiset(a[..]) == multiset(old(a[..])) && SortedUpTo(a[..], a.Length)
  {
    hide PairLess, SortedUpTo, SortedBut;
    NothingToSort(a[..]);
    for i := 0 to a.Length
      invariant multiset(a[..]) == multiset(old(a[..])) && SortedUpTo(a[..], i)
    {
      var j := i;
      LastIsLoose(a[..], i);
      while j > 0 && PairLess(a[j], a[j - 1])
        invariant 0 <= j <= i
        invariant multiset(a[..]) == multiset(old(a[..])) && SortedBut(a[..], i + 1, j)
      {
        SwapDown(a[..], i + 1, j);
        ghost var s := a[..];
        a[j], a[j - 1] := a[j - 1], a[j];
        assert a[..] == s[j := s[j - 1]][j - 1 := s[j]];
        j := j - 1;
      }
      InPlace(a[..], i + 1, j);
    }
  }

  lemma NothingToSort(s: seq<Pair>)
    ensures SortedUpTo(s, 0)
  {
  }

  lemma LastIsLoose(s: seq<Pair>, n: nat)
    requires n < |s| && SortedUpTo(s, n)
    ensures SortedBut(s, n + 1, n)
  {
  }

  lemma MembersAppend(s: seq<Pair>, p: Pair)
    ensures Members(s + [p]) == Members(s) + {p}
  {
  }

  /** Vec::dedup on a sorted vector. */
  method Dedup(sorted: seq<Pair>) returns (r: seq<Pair>)
    requires SortedUpTo(sorted, |sorted|)
    ensures Ascending(r) && Members(r) == Members(sorted)
  {
    hide PairLess;
    r := [];
    for i := 0 to |sorted|
      invariant Members(r) == Members(sorted[..i]) && Ascending(r)
      invariant r == [] <==> i == 0
      invariant i > 0 ==> r[|r| - 1] == sorted[i - 1]
    {
      assert sorted[..i + 1] == sorted[..i] + [sorted[i]];
      MembersAppend(sorted[..i], sorted[i]);
      MembersAppend(r, sorted[i]);
      if r == [] || r[|r| - 1] != sorted[i] {
        if r != [] {
          AscendingBelow(r, sorted[i]);
        }
        r := r + [sorted[i]];
      }
    }
    assert sorted[..|sorted|] == sorted;
  }

  method SortAndDedup(pairs: seq<Pair>) returns (r: seq<Pair>)
    ensures r == SortedOnce(pairs)
  {
    hide PairLess;
    var a := new Pair[|pairs|](i requires 0 <= i < |pairs| => pairs[i]);
    assert a[..] == pairs;
    SortPairs(a);
    SameMembers(a[..], pairs);
    r := Dedup(a[..]);
    AscendingIsUnique(r, SortedOnce(pairs));
  }

  lemma SameMembers(a: seq<Pair>, b: seq<Pair>)
    requires multiset(a) == multiset(b)
    ensures Members(a) == Members(b)
  {
    forall p
      ensures p in a <==> p in b
    {
      assert p in a <==> p in multiset(a);
      assert p in b <==> p in multiset(b);
    }
  }

  lemma AscendingBelow(r: seq<Pair>, p: Pair)
    requires Ascending(r) && r != [] && PairLess(r[|r| - 1], p)
    ensures Ascending(r + [p])
  {
    forall i | 0 <= i < |r| - 1
      ensures PairLess(r[i], p)
    {
      PairTransitive(r[i], r[|r| - 1], p);
    }
  }

  method ResourceQueryPairs(lossy: string -> string, url: Url) returns (r: seq<Pair>)
    ensures r == ResourcePairs(lossy, url)
  {
    var candidates := SafeOnes(QueryPairs(lossy, url));
    candidates := SortAndDedup(candidates);
    r := if |candidates| <= 4 then candidates else [];
  }

  method HasInvalidResourceQuery(lossy: string -> string, url: Url) returns (r: bool)
    ensures r == InvalidResourceQuery(lossy, url)
  {
    var recognized := Recognized(QueryPairs(lossy, url));
    if recognized == [] {
      return false;
    }
    if exists i :: 0 <= i < |recognized| && !SafeValue(recognized[i].1) {
      return true;
    }
    var once := SortAndDedup(recognized);
    return |once| > 4;
  }

  method CanonicalizeUrl(lossy: string -> string, url: Url) returns (r: Url)
    ensures r == Canonical(lossy, url)
  {
    r := url;
    r := r.(fragment := None);
    var query := ResourceQueryPairs(lossy, r);
    if query == [] {
      r := r.(query := None);
    } else {
      r := r.(query := Some(PrintQuery(query)));
    }
  }
}
