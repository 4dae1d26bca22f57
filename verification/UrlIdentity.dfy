/** The SQL function public_url_identity_key: which public URLs count as one address. */
module UrlIdentity {

  /** split_part(s, c, 1). */
  function Before(s: string, c: char): (r: string)
    ensures r <= s && c !in r
    ensures |r| < |s| ==> s[|r|] == c
  {
    if s == [] || s[0] == c then [] else
      var r := Before(s[1..], c);
      assert s == [s[0]] + s[1..];
      [s[0]] + r
  }

  function LowerChar(c: char): char {
    if 'A' <= c <= 'Z' then (c as int + 32) as char else c
  }

  function Lower(s: string): (r: string)
    ensures |r| == |s|
    ensures forall i :: 0 <= i < |s| ==> r[i] == LowerChar(s[i])
  {
    if s == [] then [] else [LowerChar(s[0])] + Lower(s[1..])
  }

  predicate StartsWithCi(s: string, p: string) {
    |p| <= |s| && Lower(s[..|p|]) == p
  }

  /** regexp_replace with '^https?://(www\.)?' and the flag i. */
  function StripOrigin(s: string): string {
    if StartsWithCi(s, "https://") then StripWww(s[8..])
    else if StartsWithCi(s, "http://") then StripWww(s[7..])
    else s
  }

  function StripWww(s: string): string {
    if StartsWithCi(s, "www.") then s[4..] else s
  }

  function TrimSlashes(s: string): (r: string)
    ensures r <= s
    ensures r != [] ==> r[|r| - 1] != '/'
  {
    if s != [] && s[|s| - 1] == '/' then TrimSlashes(s[..|s| - 1]) else s
  }

  function IdentityKey(value: string): string {
    KeyFrom(StripOrigin(Resource(value)), Query(value))
  }

  /** The text before any query or fragment. */
  function Resource(value: string): string { Before(Before(value, '#'), '?') }

  /** From the question mark up to the fragment. */
  function Query(value: string): string { Before(value, '#')[|Resource(value)|..] }

  function KeyFrom(stripped: string, query: string): string {
    var address := TrimSlashes(stripped);
    var host := Before(address, '/');
    Lower(host) + address[|host|..] + query
  }

  lemma BeforePrefix(s: string, t: string, c: char)
    requires c !in s
    ensures Before(s + t, c) == s + Before(t, c)
  {
    if s != [] {
      assert (s + t)[1..] == s[1..] + t;
      BeforePrefix(s[1..], t, c);
    } else {
      assert s + t == t;
    }
  }

  /** A fragment never matters. */
  lemma FragmentIsIgnored(url: string, fragment: string)
    requires '#' !in url
    ensures IdentityKey(url + "#" + fragment) == IdentityKey(url)
  {
    assert url + "#" + fragment == url + ("#" + fragment);
    BeforePrefix(url, "#" + fragment, '#');
    assert url + [] == url;
    BeforePrefix(url, [], '#');
  }

  lemma PartsAfterOrigin(origin: string, rest: string)
    requires '#' !in origin && '?' !in origin
    ensures Resource(origin + rest) == origin + Resource(rest)
    ensures Query(origin + rest) == Query(rest)
  {
    BeforePrefix(origin, rest, '#');
    BeforePrefix(origin, Before(rest, '#'), '?');
  }

  // ----- Scheme and www.

  predicate Bare(origin: string) { Lower(origin) in {"http://", "https://"} }

  predicate WithWww(origin: string) { Lower(origin) in {"http://www.", "https://www."} }

  predicate Origin(origin: string) { Bare(origin) || WithWww(origin) }

  lemma LowerSlice(s: string, i: nat, j: nat)
    requires i <= j <= |s|
    ensures Lower(s[i..j]) == Lower(s)[i..j]
  {
    hide Lower;
    assert forall k :: 0 <= k < j - i ==> Lower(s[i..j])[k] == Lower(s)[i..j][k];
  }

  lemma StartsAs(s: string, p: string)
    ensures StartsWithCi(s, p) <==> p <= Lower(s)
  {
    hide Lower;
    if |p| <= |s| {
      LowerSlice(s, 0, |p|);
      assert s[0..|p|] == s[..|p|] && Lower(s)[0..|p|] == Lower(s)[..|p|];
    }
  }

  lemma LowerAppend(a: string, b: string)
    ensures Lower(a + b) == Lower(a) + Lower(b)
  {
    hide Lower;
  }

  lemma BareHasNoMark(origin: string)
    requires Origin(origin)
    ensures '#' !in origin && '?' !in origin
  {
    hide Lower;
    assert '#' !in Lower(origin) && '?' !in Lower(origin);
    forall i | 0 <= i < |origin|
      ensures origin[i] != '#' && origin[i] != '?'
    {
      assert Lower(origin)[i] == LowerChar(origin[i]);
    }
  }

  lemma BareStrips(origin: string, rest: string)
    requires Bare(origin)
    ensures StripOrigin(origin + rest) == StripWww(rest)
  {
    hide Lower, StripWww, StartsWithCi;
    var s := origin + rest;
    LowerAppend(origin, rest);
    StartsAs(s, "https://");
    StartsAs(s, "http://");
    assert s[|origin|..] == rest;
    if Lower(origin) == "http://" {
      assert Lower(s)[4] == ':';
    }
  }

  lemma WwwStrips(origin: string, rest: string)
    requires WithWww(origin)
    ensures StripOrigin(origin + rest) == rest
  {
    hide Lower, StripOrigin, StartsWithCi;
    var n := |origin| - 4;
    var scheme, www := origin[..n], origin[n..];
    LowerSlice(origin, 0, n);
    LowerSlice(origin, n, |origin|);
    assert "http://www."[0..7] == "http://" && "http://www."[7..11] == "www.";
    assert "https://www."[0..8] == "https://" && "https://www."[8..12] == "www.";
    assert origin + rest == scheme + (www + rest);
    BareStrips(scheme, www + rest);
    LowerAppend(www, rest);
    StartsAs(www + rest, "www.");
  }

  lemma KeyAfterOrigin(origin: string, rest: string)
    requires Origin(origin)
    ensures IdentityKey(origin + rest) == KeyFrom(if WithWww(origin) then Resource(rest)
                                                  else StripWww(Resource(rest)), Query(rest))
  {
    hide Resource, Query, StripOrigin, StripWww, KeyFrom, Lower;
    BareHasNoMark(origin);
    PartsAfterOrigin(origin, rest);
    if WithWww(origin) {
      WwwStrips(origin, Resource(rest));
    } else {
      BareStrips(origin, Resource(rest));
    }
  }

  /** Cutting at the first mark does not touch a leading `www.`. */
  lemma WwwOfResource(rest: string)
    ensures StartsWithCi(Resource(rest), "www.") <==> StartsWithCi(rest, "www.")
  {
    hide Lower, Before;
    var cut, whole := Before(rest, '#'), Resource(rest);
    StartsAs(rest, "www.");
    StartsAs(whole, "www.");
    assert whole <= cut <= rest;
    LowerSlice(rest, 0, |whole|);
    assert rest[0..|whole|] == whole;
  }

  lemma KeyLength(stripped: string, query: string)
    ensures |KeyFrom(stripped, query)| == |TrimSlashes(stripped)| + |query|
  {
  }

  lemma {:induction false} TrimAfterDot(head: string, s: string)
    requires head != [] && head[|head| - 1] == '.'
    ensures |TrimSlashes(head + s)| == |head| + |TrimSlashes(s)|
    decreases |s|
  {
    if s == [] {
      assert head + s == head;
    } else if s[|s| - 1] == '/' {
      assert (head + s)[..|head + s| - 1] == head + s[..|s| - 1];
      TrimAfterDot(head, s[..|s| - 1]);
    }
  }

  lemma WwwMatters(resource: string, query: string)
    requires StartsWithCi(resource, "www.")
    ensures KeyFrom(resource, query) != KeyFrom(StripWww(resource), query)
  {
    hide KeyFrom, TrimSlashes, Lower;
    StartsAs(resource, "www.");
    assert Lower(resource)[3] == LowerChar(resource[3]) == '.';
    assert resource == resource[..4] + resource[4..];
    TrimAfterDot(resource[..4], resource[4..]);
    KeyLength(resource, query);
    KeyLength(resource[4..], query);
  }

  /**
   For every URL and in any letter case, http and https name the same address, with or without a `www.`,
   unless that `www.` is given on one side only and another one follows it.
   */
  lemma SchemeAndWwwAreIgnored(a: string, b: string, rest: string)
    requires Origin(a) && Origin(b)
    ensures IdentityKey(a + rest) == IdentityKey(b + rest) <==>
        (WithWww(a) <==> WithWww(b)) || !StartsWithCi(rest, "www.")
  {
    hide IdentityKey, KeyFrom, Resource, Query, Bare, WithWww, StartsWithCi;
    KeyAfterOrigin(a, rest);
    KeyAfterOrigin(b, rest);
    WwwOfResource(rest);
    if StartsWithCi(rest, "www.") {
      WwwMatters(Resource(rest), Query(rest));
    }
  }

  // ----- Trailing slashes

  /** The text after an address: nothing, or a query or fragment. */
  predicate Suffix(tail: string) { tail == [] || tail[0] == '?' || tail[0] == '#' }

  lemma SplitAddress(resource: string, tail: string)
    requires '#' !in resource && '?' !in resource && Suffix(tail)
    ensures IdentityKey(resource + tail) == KeyFrom(StripOrigin(resource), Query(tail))
  {
    hide StripOrigin, KeyFrom;
    PartsAfterOrigin(resource, tail);
    assert Resource(tail) == [];
    assert resource + [] == resource;
  }

  /** Adding the slash completes an origin. */
  predicate CutOrigin(resource: string) { Lower(resource) == "http:/" || Lower(resource) == "https:/" }

  lemma StripBeforeSlash(resource: string)
    ensures StripOrigin(resource + "/") == if CutOrigin(resource) then [] else StripOrigin(resource) + "/"
  {
    hide Lower, StartsWithCi, StripWww;
    var longer := resource + "/";
    LowerAppend(resource, "/");
    assert Lower("/")[0] == LowerChar('/') == '/';
    var low := Lower(resource);
    assert Lower(longer) == low + "/";
    StartsAs(resource, "https://");
    StartsAs(resource, "http://");
    StartsAs(longer, "https://");
    StartsAs(longer, "http://");
    Completes(low, "https://");
    Completes(low, "http://");
    if StartsWithCi(longer, "https://") {
      assert longer[8..] == if CutOrigin(resource) then [] else resource[8..] + "/";
      WwwBeforeSlash(longer[8..]);
      if !CutOrigin(resource) { WwwBeforeSlash(resource[8..]); }
    } else if StartsWithCi(longer, "http://") {
      assert longer[7..] == if CutOrigin(resource) then [] else resource[7..] + "/";
      WwwBeforeSlash(longer[7..]);
      if !CutOrigin(resource) { WwwBeforeSlash(resource[7..]); }
    }
  }

  lemma Completes(low: string, origin: string)
    requires origin != [] && origin[|origin| - 1] == '/'
    ensures origin <= low + "/" <==> origin <= low || low == origin[..|origin| - 1]
  {
    if origin <= low + "/" && |origin| == |low| + 1 {
      assert low == (low + "/")[..|low|];
    }
  }

  lemma WwwBeforeSlash(rest: string)
    ensures StripWww(rest + "/") == StripWww(rest) + "/"
    ensures StripWww([]) == []
  {
    hide Lower, StartsWithCi;
    var longer := rest + "/";
    LowerAppend(rest, "/");
    assert Lower("/")[0] == LowerChar('/') == '/';
    StartsAs(longer, "www.");
    StartsAs(rest, "www.");
    StartsAs([], "www.");
    if |rest| == 3 {
      assert Lower(longer)[3] == '/';
    }
  }

  /**
   For every URL, a slash at the end of the address, before any query or fragment, does not matter, unless the
   address is a scheme with one slash, which the added one turns into an origin.
   */
  lemma TrailingSlashIsIgnored(resource: string, tail: string)
    requires '#' !in resource && '?' !in resource && Suffix(tail)
    ensures IdentityKey(resource + "/" + tail) == IdentityKey(resource + tail) <==> !CutOrigin(resource)
  {
    hide IdentityKey, StripOrigin, Query, KeyFrom, CutOrigin;
    SplitAddress(resource, tail);
    SplitAddress(resource + "/", tail);
    StripBeforeSlash(resource);
    var x := StripOrigin(resource);
    assert (x + "/")[..|x + "/"| - 1] == x;
    if CutOrigin(resource) {
      CutOriginKey(resource);
      KeyLength(x, Query(tail));
      KeyLength([], Query(tail));
    } else {
      SlashTrimmed(x, Query(tail));
    }
  }

  lemma SlashTrimmed(x: string, query: string)
    ensures KeyFrom(x + "/", query) == KeyFrom(x, query)
  {
    assert (x + "/")[..|x + "/"| - 1] == x;
    assert TrimSlashes(x + "/") == TrimSlashes(x);
  }

  lemma CutOriginKey(resource: string)
    requires CutOrigin(resource)
    ensures TrimSlashes(StripOrigin(resource)) != []
  {
    hide Lower, StartsWithCi, TrimSlashes;
    StartsAs(resource, "https://");
    StartsAs(resource, "http://");
    assert Lower(resource)[0] == LowerChar(resource[0]) == 'h';
    assert "https:/"[4] != "http://"[4];
    NotAllSlashes(resource);
  }

  lemma {:induction false} NotAllSlashes(s: string)
    requires s != [] && s[0] != '/'
    ensures TrimSlashes(s) != []
  {
    if s[|s| - 1] == '/' {
      NotAllSlashes(s[..|s| - 1]);
    }
  }

  // ----- The key, told by the parts of a URL

  const CAPITALS := "ABCDEFGHIJKLMNOPQRSTUVWXYZ"
  const SMALL := "abcdefghijklmnopqrstuvwxyz"

  /** Folding replaces the 26 capital letters by the small ones and nothing else. */
  lemma LettersFold(c: char)
    ensures |CAPITALS| == |SMALL| == 26
    ensures forall i :: 0 <= i < 26 ==> LowerChar(CAPITALS[i]) == SMALL[i]
    ensures c !in CAPITALS ==> LowerChar(c) == c
  {
    var capitals := CAPITALS;
    if 'A' <= c <= 'Z' {
      assert capitals[c as int - 'A' as int] == c;
    }
  }

  predicate Has(s: string, c: char) { exists i :: 0 <= i < |s| && s[i] == c }

  lemma HasAppend(a: string, b: string, c: char)
    ensures Has(a + b, c) <==> Has(a, c) || Has(b, c)
  {
    if i :| 0 <= i < |a| && a[i] == c { assert (a + b)[i] == c; }
    if i :| 0 <= i < |b| && b[i] == c { assert (a + b)[|a| + i] == c; }
  }

  lemma {:induction false} TrimsOff(address: string, slashes: string)
    requires address != [] ==> address[|address| - 1] != '/'
    requires forall i :: 0 <= i < |slashes| ==> slashes[i] == '/'
    ensures TrimSlashes(address + slashes) == address
  {
    if slashes == [] {
      assert address + slashes == address;
    } else {
      assert (address + slashes)[..|address + slashes| - 1] == address + slashes[..|slashes| - 1];
      TrimsOff(address, slashes[..|slashes| - 1]);
    }
  }

  lemma CutsBefore(s: string, t: string, c: char)
    requires !Has(s, c) && (t == [] || t[0] == c)
    ensures Before(s + t, c) == s
  {
    assert c !in s;
    BeforePrefix(s, t, c);
    assert Before(t, c) == [];
  }

  lemma PartsOf(address: string, query: string, fragment: string)
    requires !Has(address, '#') && !Has(address, '?') && !Has(query, '#')
    requires (query == [] || query[0] == '?') && (fragment == [] || fragment[0] == '#')
    ensures Resource(address + query + fragment) == address && Query(address + query + fragment) == query
  {
    HasAppend(address, query, '#');
    CutsBefore(address + query, fragment, '#');
    CutsBefore(address, query, '?');
  }

  /** The key is the host in small letters, the path without the slashes at its end, and the query. */
  lemma KeyOfAddress(origin: string, host: string, path: string, slashes: string, query: string, fragment: string)
    requires WithWww(origin)
    requires host != [] && !Has(host, '/') && !Has(host, '?') && !Has(host, '#')
    requires !Has(path, '?') && !Has(path, '#') && (path == [] || (path[0] == '/' && path[|path| - 1] != '/'))
    requires forall i :: 0 <= i < |slashes| ==> slashes[i] == '/'
    requires !Has(query, '#') && (query == [] || query[0] == '?') && (fragment == [] || fragment[0] == '#')
    ensures IdentityKey(origin + (host + path + slashes + query + fragment)) == Lower(host) + path + query
  {
    var address := host + path + slashes;
    forall c | c == '?' || c == '#'
      ensures !Has(address, c)
    {
      HasAppend(host, path, c);
      HasAppend(host + path, slashes, c);
    }
    hide Lower, StripOrigin, Has, WithWww, Before, IdentityKey;
    KeyAfterOrigin(origin, address + query + fragment);
    PartsOf(address, query, fragment);
    EndsInNoSlash(host, path);
    TrimsOff(host + path, slashes);
    CutsBefore(host, path, '/');
  }

  lemma EndsInNoSlash(host: string, path: string)
    requires host != [] && !Has(host, '/') && (path == [] || path[|path| - 1] != '/')
    ensures (host + path)[|host + path| - 1] != '/'
  {
    assert host[|host| - 1] != '/';
  }
}
