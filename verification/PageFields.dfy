/** Which fields of a query identify a page, told by name, and how fields are written in a query. */
module PageFields {
  import opened Common
  import opened UrlIdentity
  import opened UrlPolicy
  import opened CanonicalUrls

  // ----- Page fields

  /** The names under which content systems put the number of an article. */
  predicate PageName(name: string) {
    || name in {"id", "cid", "nid", "p"}
    || name in {"article", "content", "item", "post", "story"}
    || name in {"article_id", "content_id", "item_id", "post_id", "story_id"}
    || name in {"articleid", "contentid", "itemid", "postid", "storyid"}
    || name in {"news_id", "page_id", "record_id", "release_id", "newsid", "pageid", "recordid", "releaseid"}
  }

  /** One to 128 letters, digits, hyphens, underscores and full stops. */
  predicate PageValue(value: string) {
    && 1 <= |value| <= 128
    && forall c :: c in value ==> 'a' <= c <= 'z' || 'A' <= c <= 'Z' || '0' <= c <= '9' || c in {'-', '_', '.'}
  }

  predicate PageField(p: Pair) { PageName(p.0) && PageValue(p.1) }

  lemma {:induction false} AsciiLength(s: string)
    requires forall i :: 0 <= i < |s| ==> s[i] as int < 0x80
    ensures ByteLen(s) == |s|
  {
    if s != [] { AsciiLength(s[1..]); }
  }

  lemma SafeByName(p: Pair)
    ensures ResourceKey(p.0) <==> PageName(p.0)
    ensures SafeValue(p.1) <==> PageValue(p.1)
  {
    assert ResourceKey(p.0) <==> PageName(p.0) by { hide SafeValue, PageValue; }
    hide ResourceKey, PageName;
    PageValueIsSafe(p.1);
  }

  lemma PageValueIsSafe(value: string)
    ensures SafeValue(value) <==> PageValue(value)
  {
    if PageValue(value) {
      assert forall i :: 0 <= i < |value| ==> value[i] in value;
      AsciiLength(value);
    }
    if SafeValue(value) {
      AsciiLength(value);
    }
  }

  /**
   A field of a query as it is looked at: spaces around name and value do not count, nor does the case of the name.
   */
  function FieldOf(lossy: string -> string, segment: string): Pair {
    var (name, value) := ParsePair(lossy, segment);
    (Lower(Trim(name)), Trim(value))
  }

  function PageFieldsOf(lossy: string -> string, url: Url): set<Pair> {
    set s | s in Pieces(url) && PageField(FieldOf(lossy, s)) :: FieldOf(lossy, s)
  }

  lemma FieldsAreSafeOnes(lossy: string -> string, url: Url)
    ensures PageFieldsOf(lossy, url) == Members(SafeOnes(QueryPairs(lossy, url)))
  {
    hide SafeValue, ResourceKey, PageName, PageValue, ParsePair, Segments, SafeOnes, Trim, Lower, QueryPairs;
    forall p
      ensures p in PageFieldsOf(lossy, url) <==> p in SafeOnes(QueryPairs(lossy, url))
    {
      SafeByName(p);
      PiecesDecide(lossy, url, p);
      assert forall s :: FieldOf(lossy, s) == Trimmed(ParsePair(lossy, s));
    }
  }

  function Joined(pairs: seq<Pair>): string {
    if pairs == [] then []
    else if |pairs| == 1 then pairs[0].0 + "=" + pairs[0].1
    else pairs[0].0 + "=" + pairs[0].1 + "&" + Joined(pairs[1..])
  }

  lemma {:induction false} PrintedIsJoined(pairs: seq<Pair>)
    requires AllSafe(pairs)
    ensures PrintQuery(pairs) == Joined(pairs)
  {
    hide SafePair, PrintPair;
    if pairs != [] {
      PrintedPair(pairs[0]);
      PrintedIsJoined(pairs[1..]);
    }
  }

  /**
   A canonical URL has the page fields of the URL, if there are at most four different ones, each once and in order, and
   nothing else of the query and no fragment.
   */
  lemma CanonicalKeepsPageFields(lossy: string -> string, url: Url) returns (fields: seq<Pair>)
    ensures var all, c := PageFieldsOf(lossy, url), Canonical(lossy, url);
            && c.base == url.base && c.fragment.None?
            && if all == {} || |all| > 4 then c.query.None?
               else c.query == Some(Joined(fields)) && Ascending(fields) && Members(fields) == all
  {
    hide QueryPairs, SafeOnes, SortedOnce, PrintQuery, SafePair, PairLess, PageFieldsOf, Joined;
    FieldsAreSafeOnes(lossy, url);
    SameQuerySamePairs(lossy, url, url.(fragment := None));
    fields := SortedOnce(SafeOnes(QueryPairs(lossy, url)));
    AscendingSize(fields);
    assert fields != [] ==> fields[0] in Members(fields);
    if |fields| <= 4 {
      ResourcePairsAreSafe(lossy, url);
      PrintedIsJoined(fields);
    }
  }

  lemma {:induction false} UnsafeIsRecognized(pairs: seq<Pair>)
    ensures (exists i :: 0 <= i < |Recognized(pairs)| && !SafeValue(Recognized(pairs)[i].1)) <==>
            exists i :: 0 <= i < |pairs| && ResourceKey(Trimmed(pairs[i]).0) && !SafeValue(Trimmed(pairs[i]).1)
    ensures (forall i :: 0 <= i < |Recognized(pairs)| ==> SafeValue(Recognized(pairs)[i].1)) ==>
              Recognized(pairs) == SafeOnes(pairs)
  {
    hide Trimmed, ResourceKey, SafeValue;
    if pairs != [] {
      var rest := pairs[1..];
      UnsafeIsRecognized(rest);
      assert forall i :: 0 <= i < |rest| ==> rest[i] == pairs[i + 1];
      var first := if ResourceKey(Trimmed(pairs[0]).0) then [Trimmed(pairs[0])] else [];
      assert Recognized(pairs) == first + Recognized(rest);
      assert forall i :: 0 <= i < |Recognized(rest)| ==> Recognized(pairs)[|first| + i] == Recognized(rest)[i];
      if i :| 0 <= i < |Recognized(pairs)| && !SafeValue(Recognized(pairs)[i].1) {
        assert i >= |first| ==> Recognized(rest)[i - |first|] == Recognized(pairs)[i];
      }
      if i :| 0 <= i < |pairs| && ResourceKey(Trimmed(pairs[i]).0) && !SafeValue(Trimmed(pairs[i]).1) {
        assert i > 0 ==> rest[i - 1] == pairs[i];
        assert i == 0 ==> Recognized(pairs)[0] == Trimmed(pairs[0]);
      }
    }
  }

  lemma {:induction false} ParsedAt(lossy: string -> string, segments: seq<string>, i: nat)
    requires i < |segments|
    ensures |ParseSegments(lossy, segments)| == |segments|
    ensures ParseSegments(lossy, segments)[i] == ParsePair(lossy, segments[i])
  {
    hide ParsePair;
    if i > 0 { ParsedAt(lossy, segments[1..], i - 1); }
    if i == 0 && |segments| > 1 { ParsedAt(lossy, segments[1..], 0); }
  }

  /**
   A URL is turned away exactly if a page field has a value that is none, or if there are more than four page fields.
   */
  lemma InvalidExactlyWhen(lossy: string -> string, url: Url)
    ensures InvalidResourceQuery(lossy, url) <==>
            || (exists s :: s in Pieces(url) && PageName(FieldOf(lossy, s).0) && !PageValue(FieldOf(lossy, s).1))
            || |PageFieldsOf(lossy, url)| > 4
  {
    hide ParsePair, Segments, SafeOnes, Recognized, Trim, Lower, SortedOnce, PairLess, PageName, PageValue, ResourceKey,
         SafeValue, PageFieldsOf, ParseSegments;
    var segments, pairs := Pieces(url), QueryPairs(lossy, url);
    NoFields(lossy);
    assert pairs == ParseSegments(lossy, segments);
    FieldsAreSafeOnes(lossy, url);
    UnsafeIsRecognized(pairs);
    AscendingSize(SortedOnce(SafeOnes(pairs)));
    if s :| s in segments && PageName(FieldOf(lossy, s).0) && !PageValue(FieldOf(lossy, s).1) {
      var i :| 0 <= i < |segments| && segments[i] == s;
      ParsedAt(lossy, segments, i);
      SafeByName(FieldOf(lossy, s));
      assert Trimmed(pairs[i]) == FieldOf(lossy, s);
    }
    if i :| 0 <= i < |pairs| && ResourceKey(Trimmed(pairs[i]).0) && !SafeValue(Trimmed(pairs[i]).1) {
      if segments != [] { ParsedAt(lossy, segments, 0); }
      ParsedAt(lossy, segments, i);
      SafeByName(Trimmed(pairs[i]));
      assert segments[i] in segments && Trimmed(pairs[i]) == FieldOf(lossy, segments[i]);
    }
  }

  lemma NoFields(lossy: string -> string)
    ensures ParseSegments(lossy, []) == []
  {
  }

  // ----- Writing and reading any field

  predicate Bytes(b: string) { forall i :: 0 <= i < |b| ==> b[i] as int < 256 }

  lemma HexReads(n: nat)
    requires n < 16
    ensures HexValue(HexDigit(n)) == Some(n)
  {
  }

  lemma OneByteReads(c: char, rest: string)
    requires c as int < 256
    ensures Unescape(EscapeByte(c) + rest) == [c] + Unescape(rest)
  {
    var s := EscapeByte(c) + rest;
    if Unreserved(c) {
      assert s[1..] == rest;
    } else if c == ' ' {
      assert s[0] == '+' && s[1..] == rest;
    } else {
      var hi, lo := c as nat / 16, c as nat % 16;
      HexReads(hi % 16);
      HexReads(lo);
      assert hi % 16 == hi && hi * 16 + lo == c as nat;
      assert s[0] == '%' && s[1] == HexDigit(hi % 16) && s[2] == HexDigit(lo) && s[3..] == rest;
    }
  }

  /** Reading undoes writing, for all bytes. */
  lemma {:induction false} UnescapeUndoesEscape(b: string)
    requires Bytes(b)
    ensures Unescape(EscapeBytes(b)) == b
  {
    hide EscapeByte, Unescape;
    if b == [] {
      NothingRead();
    } else {
      OneByteReads(b[0], EscapeBytes(b[1..]));
      UnescapeUndoesEscape(b[1..]);
      assert b == [b[0]] + b[1..];
    }
  }

  lemma NothingRead()
    ensures Unescape([]) == []
  {
  }

  /** A byte may be written with small letters too, and a percent sign that starts no byte stands for itself. */
  lemma PercentSigns(hi: nat, lo: nat, c: char, rest: string)
    requires hi < 16 && lo < 16
    ensures Unescape("%" + [LowerChar(HexDigit(hi)), LowerChar(HexDigit(lo))] + rest) ==
            [(hi * 16 + lo) as char] + Unescape(rest)
    ensures !('0' <= c <= '9' || 'a' <= c <= 'f' || 'A' <= c <= 'F') ==>
              Unescape("%" + [c] + rest) == "%" + Unescape([c] + rest)
    ensures Unescape("%") == "%"
  {
    var s := "%" + [LowerChar(HexDigit(hi)), LowerChar(HexDigit(lo))] + rest;
    assert s[3..] == rest;
    assert HexValue(LowerChar(HexDigit(hi))) == Some(hi) && HexValue(LowerChar(HexDigit(lo))) == Some(lo);
    var t := "%" + [c] + rest;
    assert t[1..] == [c] + rest && t[1] == c;
    assert "%"[1..] == [];
  }
}
