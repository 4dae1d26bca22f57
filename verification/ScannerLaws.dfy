/** What the nesting scanner does on any text: where tags end, what goes uncounted, and where the limit lies. */
module ScannerLaws {
  import opened Common
  import opened UrlIdentity
  import opened Nesting
  import opened PrintedNesting
  import opened Sanitizer

  // ----- Where a tag ends

  /** The quote that is open before position `upTo`, when reading from inside a tag at `from`. */
  function OpenQuote(b: Bytes, from: nat, upTo: nat): Option<char>
    requires from <= upTo <= |b|
    decreases upTo
  {
    if upTo == from then None
    else
      var quote, c := OpenQuote(b, from, upTo - 1), b[upTo - 1];
      if quote.Some? then (if c == quote.value then None else quote)
      else if c == '"' || c == '\'' then Some(c)
      else None
  }

  predicate EndsTag(b: Bytes, from: nat, p: int) {
    from <= p < |b| && b[p] == '>' && OpenQuote(b, from, p).None?
  }

  lemma {:induction false} QuoteShifts(b: Bytes, from: nat, upTo: nat)
    requires from < upTo <= |b| && b[from] != '"' && b[from] != '\''
    ensures OpenQuote(b, from, upTo) == OpenQuote(b, from + 1, upTo)
    decreases upTo
  {
    if upTo > from + 1 {
      QuoteShifts(b, from, upTo - 1);
    }
  }

  lemma {:induction false} QuoteStaysOpen(b: Bytes, from: nat, upTo: nat)
    requires from < upTo <= |b| && (b[from] == '"' || b[from] == '\'') && b[from] !in b[from + 1..upTo]
    ensures OpenQuote(b, from, upTo) == Some(b[from])
    decreases upTo
  {
    if upTo == from + 1 {
      assert OpenQuote(b, from, from) == None;
    } else {
      assert b[from + 1..upTo][..upTo - 1 - (from + 1)] == b[from + 1..upTo - 1];
      assert b[from + 1..upTo][upTo - 1 - (from + 1)] == b[upTo - 1];
      QuoteStaysOpen(b, from, upTo - 1);
    }
  }

  lemma {:induction false} QuoteCloses(b: Bytes, from: nat, at: nat, upTo: nat)
    requires from < at < upTo <= |b| && (b[from] == '"' || b[from] == '\'')
    requires b[at] == b[from] && b[from] !in b[from + 1..at]
    ensures OpenQuote(b, from, upTo) == OpenQuote(b, at + 1, upTo)
    decreases upTo
  {
    if upTo == at + 1 {
      QuoteStaysOpen(b, from, at);
    } else {
      QuoteCloses(b, from, at, upTo - 1);
    }
  }

  /** A tag ends at the first bracket outside quotes of either kind, and nowhere if there is none. */
  lemma {:induction false} TagEndIsFirstUnquoted(b: Bytes, from: nat)
    requires from <= |b|
    ensures var (end, found) := TagEnd(b, from);
            && (found ==> EndsTag(b, from, end - 1) && forall p :: p < end - 1 ==> !EndsTag(b, from, p))
            && (!found ==> end == |b| && forall p :: !EndsTag(b, from, p))
    decreases |b| - from
  {
    hide TagEnd;
    if from == |b| {
      NoTagEnd(b);
    } else {
      TagEndStep(b, from);
      if b[from] == '"' || b[from] == '\'' {
        var past := PastQuote(b, from + 1, b[from]);
        TagEndIsFirstUnquoted(b, past);
        QuotedPart(b, from, past);
      } else if b[from] != '>' {
        TagEndIsFirstUnquoted(b, from + 1);
        forall p
          ensures EndsTag(b, from, p) <==> EndsTag(b, from + 1, p)
        {
          if from < p <= |b| { QuoteShifts(b, from, p); }
        }
        if b[from] == '/' && from + 1 < |b| && b[from + 1] == '>' {
          TagEndStep(b, from + 1);
        }
      } else {
        assert OpenQuote(b, from, from) == None;
        assert EndsTag(b, from, from);
      }
    }
  }

  /** Inside quotes no tag ends; behind them it is as if they were not there. */
  lemma QuotedPart(b: Bytes, from: nat, past: nat)
    requires from < |b| && (b[from] == '"' || b[from] == '\'') && past == PastQuote(b, from + 1, b[from])
    ensures forall p :: EndsTag(b, from, p) <==> EndsTag(b, past, p)
  {
    var quote := b[from];
    PastQuoteFinds(b, from + 1, quote);
    forall p
      ensures EndsTag(b, from, p) <==> EndsTag(b, past, p)
    {
      if from <= p < |b| && b[p] == '>' && p > from {
        if p < past {
          var part := b[from + 1..p];
          assert quote !in part;
          QuoteStaysOpen(b, from, p);
        } else if b[past - 1] == quote && past - 1 > from {
          if p > past - 1 { QuoteCloses(b, from, past - 1, p); }
        }
      }
    }
  }

  lemma {:induction false} PastQuoteFinds(b: Bytes, i: nat, quote: char)
    requires i <= |b|
    ensures var past := PastQuote(b, i, quote);
            && i <= past <= |b|
            && (past < |b| ==> past > i && b[past - 1] == quote)
            && (forall p :: i <= p < past - 1 ==> b[p] != quote)
            && (past > i && b[past - 1] != quote ==> past == |b|)
    decreases |b| - i
  {
    if i < |b| && b[i] != quote {
      PastQuoteFinds(b, i + 1, quote);
    }
  }

  // ----- Text that is never finished

  /** Without another closing bracket nothing more is counted, whatever tags, comments or texts begin. */
  lemma {:induction false} NothingMoreIsCounted(b: Bytes, s: Scan)
    requires s.index <= |b| && '>' !in b[s.index..]
    ensures ScanFrom(b, s).depth == s.depth && ScanFrom(b, s).deepest == s.deepest
    decreases |b| - s.index
  {
    hide ScanFrom, Advance;
    if s.index == |b| {
      ScanEnds(b, s);
    } else {
      ScanStep(b, s);
      NoStepCounts(b, s);
      if Advance(b, s).Some? {
        var next := Advance(b, s).value;
        assert b[next.index..] == b[s.index..][next.index - s.index..];
        NothingMoreIsCounted(b, next);
      }
    }
  }

  lemma NoStepCounts(b: Bytes, s: Scan)
    requires s.index < |b| && '>' !in b[s.index..]
    ensures Advance(b, s).Some? ==> Advance(b, s).value.depth == s.depth && Advance(b, s).value.deepest == s.deepest
  {
    hide TagEnd, NameEnd, Find, OccursAt, RawText, IsVoid, Opened, Closer;
    forall p | s.index <= p < |b|
      ensures b[p] != '>'
    {
      assert b[s.index..][p - s.index] == b[p];
    }
  }

  /** A comment that is never closed hides the rest of the text. */
  lemma UnclosedCommentEndsTheScan(b: Bytes, s: Scan)
    requires Here(b, s.index, "<!--") && forall i :: s.index + 4 <= i < |b| ==> !OccursAt(b, i, "-->", false)
    ensures ScanFrom(b, s) == s
  {
    hide ScanFrom, OccursAt, Find, AfterTag, TagEnd;
    ByteAt(b, s.index, "<!--", 0);
    ByteAt(b, s.index, "<!--", 1);
    ByteAt(b, s.index, "<!--", 2);
    ByteAt(b, s.index, "<!--", 3);
    NeverFound(b, s.index + 4, "-->", false);
    ScanStep(b, s);
  }

  lemma NeverFound(b: Bytes, from: nat, needle: Bytes, anyCase: bool)
    requires needle != [] && forall i :: from <= i < |b| ==> !OccursAt(b, i, needle, anyCase)
    ensures Find(b, from, needle, anyCase).None?
  {
  }

  function OpenTagText(tag: string, attrs: seq<(string, string)>): string { PrintToken(Open(tag, attrs)) }

  lemma OpenTagPrints(tag: string, attrs: seq<(string, string)>)
    ensures OpenTagText(tag, attrs) == OpenTag(tag, attrs)
  {
  }

  lemma TagBranch(b: Bytes, s: Scan)
    requires s.index + 1 < |b| && b[s.index] == '<' && IsAlphabetic(b[s.index + 1])
    ensures Advance(b, s) == AfterTag(b, s)
  {
    hide AfterTag, TagEnd, Find;
  }

  lemma GivesUp(b: Bytes, s: Scan, tag: string, end: nat)
    requires RawText(tag) && s.index + 2 <= end <= |b| && Find(b, end, Closer(tag), true).None?
    ensures AfterNamed(b, s, tag, end, true) == None
  {
    hide Find, Closer;
  }

  lemma ScriptGivesUp(b: Bytes, s: Scan, tag: string, attrs: seq<(string, string)>, end: nat)
    requires RawText(tag) && PlainAttrs(attrs) && Here(b, s.index, Utf8(OpenTag(tag, attrs)))
    requires end == s.index + |Utf8(OpenTag(tag, attrs))| && Find(b, end, Closer(tag), true).None?
    ensures s.index < |b| && Advance(b, s) == None
  {
    hide Find, TagEnd, NameEnd, Utf8, RawText, Closer, PlainAttrs, Here, AfterNamed, IsNameByte, IsName, Advance,
         OpenTag;
    RawTagFacts(tag);
    OpenTagParts(b, s.index, tag, attrs);
    GivesUp(b, s, tag, end);
    TagBranch(b, s);
  }

  /** A script or style that is never closed does, too. */
  lemma UnclosedScriptEndsTheScan(b: Bytes, s: Scan, tag: string, attrs: seq<(string, string)>)
    requires RawText(tag) && PlainAttrs(attrs) && Here(b, s.index, Utf8(OpenTagText(tag, attrs)))
    requires forall i :: s.index + |Utf8(OpenTagText(tag, attrs))| <= i < |b| ==> !OccursAt(b, i, Closer(tag), true)
    ensures ScanFrom(b, s) == s
  {
    hide ScanFrom, Advance, OccursAt, Find, Utf8, Closer, OpenTag, OpenTagText, RawText, PlainAttrs;
    var open := Utf8(OpenTagText(tag, attrs));
    var end := s.index + |open|;
    RawTagFacts(tag);
    NeverFound(b, end, Closer(tag), true);
    OpenTagPrints(tag, attrs);
    ScriptGivesUp(b, s, tag, attrs, end);
    ScanStep(b, s);
  }

  ghost predicate UnclosedScript(tail: Bytes, tag: string, attrs: seq<(string, string)>, text: Bytes) {
    RawText(tag) && PlainAttrs(attrs) && NoCloser(text, tag) && tail == Utf8(OpenTagText(tag, attrs)) + text
  }

  /** What follows the last token and is never finished. */
  ghost predicate Unfinished(tail: Bytes) {
    || '>' !in tail
    || ("<!--" <= tail && forall i :: 4 <= i < |tail| ==> !OccursAt(tail, i, "-->", false))
    || (exists tag, attrs, text :: UnclosedScript(tail, tag, attrs, text))
  }

  lemma Elsewhere(b: Bytes, tail: Bytes, i: nat, needle: Bytes, anyCase: bool)
    requires i <= |tail|
    ensures OccursAt(b + tail, |b| + i, needle, anyCase) == OccursAt(tail, i, needle, anyCase)
  {
    if i + |needle| <= |tail| {
      assert (b + tail)[|b| + i..|b| + i + |needle|] == tail[i..i + |needle|];
    }
  }

  lemma UnclosedAfter(start: Bytes, s: Scan, tail: Bytes, tag: string, attrs: seq<(string, string)>, text: Bytes)
    requires UnclosedScript(tail, tag, attrs, text) && s.index == |start|
    ensures ScanFrom(start + tail, s) == s
  {
    hide ScanFrom, OccursAt, Utf8, RawText, Closer, PlainAttrs;
    var open, b := Utf8(OpenTagText(tag, attrs)), start + tail;
    assert b[|start|..] == tail;
    assert b[|start|..|start| + |open|] == open;
    forall i | |start| + |open| <= i < |b|
      ensures !OccursAt(b, i, Closer(tag), true)
    {
      assert b == (start + open) + text;
      Elsewhere(start + open, text, i - |start + open|, Closer(tag), true);
    }
    UnclosedScriptEndsTheScan(b, s, tag, attrs);
  }

  /**
   The scan of any tokens, and then of text that is never finished, ends with the depth and the greatest depth that the
   tokens give.  The tokens have names in any letter case; among them are all kinds of notes, scripts and styles,
   opening tags that end in a slash, and less-than signs that open nothing.
   */
  lemma ScanFollowsTokens(ts: seq<Token>, tail: Bytes)
    requires PlainTokens(ts) && Unfinished(tail)
    ensures var t, k := ScanFrom(Utf8(PrintTokens(ts)) + tail, START), FollowAll(ORIGIN, ts);
            t.depth == k.depth && t.deepest == k.deepest
  {
    hide ScanFrom, FollowAll, PlainToken, Utf8, PrintTokens, OccursAt, UnclosedScript;
    var start := Utf8(PrintTokens(ts));
    var b := start + tail;
    assert b[..|start|] == start && b[|start|..] == tail;
    ScanPassesTokens(b, 0, ts);
    var s := ScanAt(|start|, FollowAll(ORIGIN, ts));
    if '>' !in tail {
      NothingMoreIsCounted(b, s);
    } else if "<!--" <= tail && forall i :: 4 <= i < |tail| ==> !OccursAt(tail, i, "-->", false) {
      forall i | |start| + 4 <= i < |b|
        ensures !OccursAt(b, i, "-->", false)
      {
        Elsewhere(start, tail, i - |start|, "-->", false);
      }
      UnclosedCommentEndsTheScan(b, s);
    } else {
      var tag, attrs, text :| UnclosedScript(tail, tag, attrs, text);
      UnclosedAfter(start, s, tail, tag, attrs, text);
    }
  }

  // ----- Which tags count, and how many are too many

  lemma ScanOf(ts: seq<Token>)
    requires PlainTokens(ts)
    ensures Deepest(Utf8(PrintTokens(ts))) == FollowAll(ORIGIN, ts).deepest
  {
    ScanFollowsTokens(ts, []);
    assert Utf8(PrintTokens(ts)) + [] == Utf8(PrintTokens(ts));
  }

  /** The void elements of HTML, in any letter case, do not count; every other tag that is no script or style does. */
  lemma OneTagCounts(tag: string)
    requires PlainTag(tag)
    ensures Deepest(Utf8(PrintTokens([Open(tag, [])]))) ==
            if Lower(tag) in {"area", "base", "br", "col", "embed", "hr", "img", "input", "link", "meta", "param",
                              "source", "track", "wbr"} then 0 else 1
  {
    hide Deepest, PlainTag, Lower;
    FollowOne(ORIGIN, Open(tag, []));
    ScanOf([Open(tag, [])]);
  }

  lemma {:induction false} LetterName(tag: string, name: string)
    requires Lower(tag) == name && name != [] && forall i :: 0 <= i < |name| ==> 'a' <= name[i] <= 'z'
    ensures IsName(tag)
  {
    hide Lower;
    forall i | 0 <= i < |tag|
      ensures IsAlphabetic(tag[i])
    {
      assert LowerChar(tag[i]) == name[i];
    }
  }

  /** Nothing inside a script or style counts, in any letter case, until a tag closes it. */
  lemma ScriptsHideTheirText(tag: string, text: string)
    requires Lower(tag) == "script" || Lower(tag) == "style"
    requires forall i :: 0 <= i < |Utf8(text)| ==> !OccursAt(Utf8(text), i, "</" + Lower(tag), true)
    ensures Deepest(Utf8("<" + tag + ">" + text + ("</" + tag + ">"))) == 0
  {
    hide Deepest, OccursAt, Utf8, Lower;
    LetterName(tag, Lower(tag));
    var raw := Raw(tag, [], text);
    assert Closer(tag) == "</" + Lower(tag);
    assert PrintTokens([raw]) == "<" + tag + ">" + text + ("</" + tag + ">") by {
      assert [raw][..0] == [] && PrintTokens([raw][..0]) == "";
      assert "<" + tag + [] + ">" == "<" + tag + ">";
    }
    FollowOne(ORIGIN, raw);
    ScanOf([raw]);
  }

  predicate Letter(c: char) { 'a' <= c <= 'z' || 'A' <= c <= 'Z' }

  /** A tag begins with a letter: of all one-letter names exactly the letters count. */
  lemma TagsBeginWithLetters(c: char)
    ensures Deepest(['<', c, '>']) == if Letter(c) then 1 else 0
  {
    hide ScanFrom, Advance;
    var b := ['<', c, '>'];
    ScanStep(b, START);
    FirstOfThree(b, c);
    if Advance(b, START).Some? {
      var s := Advance(b, START).value;
      if s.index == 3 {
        ScanEnds(b, s);
      } else {
        RestOfThree(b, c, s);
      }
    }
  }

  lemma FirstOfThree(b: Bytes, c: char)
    requires b == ['<', c, '>']
    ensures var r := Advance(b, START);
            && r.Some?
            && (if Letter(c) then r.value.index == 3 && r.value.deepest == 1
                else r.value.deepest == 0 && (r.value.index == 3 || r.value == START.(index := 1)))
  {
    if Letter(c) {
      assert NameEnd(b, 2) == 2 && NameEnd(b, 1) == 2 && TagEnd(b, 2) == (3, true);
      assert b[1..2] == [c];
      assert |Lower([c])| == 1;
    } else if c == '/' {
      assert TagEnd(b, 2) == (3, true);
    } else if c == '!' || c == '?' {
      assert b[2..3] == ">" && OccursAt(b, 2, ">", false);
    }
  }

  lemma RestOfThree(b: Bytes, c: char, s: Scan)
    requires b == ['<', c, '>'] && s == START.(index := 1)
    ensures ScanFrom(b, s).deepest == 0
  {
    hide ScanFrom;
    var last := START.(index := 2);
    ScanStep(b, s);
    assert Advance(b, s) == Some(last);
    ScanStep(b, last);
    assert Advance(b, last) == Some(START.(index := 3));
    ScanEnds(b, START.(index := 3));
  }

  /** A name goes on through letters, digits, hyphens and colons: behind them `br` is no void element any more. */
  lemma NamesGoOn(c: char)
    ensures Deepest("<br" + [c] + ">") == if Letter(c) || '0' <= c <= '9' || c == '-' || c == ':' then 1 else 0
  {
    hide ScanFrom, Advance;
    var b := "<br" + [c] + ">";
    ScanStep(b, START);
    LongerName(b, c);
    var s := Advance(b, START).value;
    if s.index < 5 { ScanStep(b, s); LastBracket(b, s); }
    ScanEnds(b, s.(index := 5));
  }

  lemma LongerName(b: Bytes, c: char)
    requires b == ['<', 'b', 'r', c, '>']
    ensures var r := Advance(b, START);
            && r.Some? && 4 <= r.value.index <= 5
            && r.value.deepest == if Letter(c) || '0' <= c <= '9' || c == '-' || c == ':' then 1 else 0
  {
    var more := Letter(c) || '0' <= c <= '9' || c == '-' || c == ':';
    assert NameEnd(b, 4) == 4;
    assert NameEnd(b, 3) == if more then 4 else 3;
    assert NameEnd(b, 1) == NameEnd(b, 2) == NameEnd(b, 3);
    if more {
      assert TagEnd(b, 4) == (5, true);
      assert b[1..4] == ['b', 'r', c];
      var low := Lower(b[1..4]);
      assert low[0] == 'b' && low[1] == 'r' && |low| == 3;
      assert low !in VOID_TAGS && low != "script" && low != "style";
    } else {
      assert b[1..3] == "br" && Lower("br") == "br";
      assert "br" in VOID_TAGS;
    }
  }

  lemma LastBracket(b: Bytes, s: Scan)
    requires |b| == 5 && b[4] == '>' && s.index == 4
    ensures Advance(b, s) == Some(s.(index := 5))
  {
  }

  /** A tag right after one with the same name counts unless HTML closes the first of them by itself. */
  lemma RepeatedTagCounts(tag: string)
    requires PlainTag(tag) && !IsVoid(tag)
    ensures Deepest(Utf8(PrintTokens([Open(tag, []), Open(tag, [])]))) ==
            if Lower(tag) in {"p", "li", "dt", "dd", "tr", "td", "th", "option", "optgroup", "caption", "colgroup",
                              "thead", "tbody", "tfoot", "rt", "rp"} then 1 else 2
  {
    hide Deepest, PlainTag, Lower, IsVoid, Utf8, PrintTokens, FollowAll;
    var open := Open(tag, []);
    FollowOne(ORIGIN, open);
    FollowConcat(ORIGIN, [open], [open]);
    FollowOne(Follow(ORIGIN, open), open);
    assert [open] + [open] == [open, open];
    ScanOf([open, open]);
  }

  function Tower(tag: string, n: nat): seq<Token> { if n == 0 then [] else Tower(tag, n - 1) + [Open(tag, [])] }

  lemma DivTokens(k: Track)
    ensures PlainToken(Open("div", [])) && PlainToken(Slashed("div", []))
    ensures Follow(k, Open("div", [])) ==
            k.(depth := k.depth + 1, deepest := Max(k.deepest, k.depth + 1), last := Some("div"), open := k.open + 1,
               height := Max(k.height, k.open + 1))
    ensures Follow(k, Slashed("div", [])) ==
            k.(open := k.open + 1, height := Max(k.height, k.open + 1), repeats := true)
  {
    hide PlainTag, IsVoid, Repeats;
    DivIsPlain();
  }

  lemma FollowOneMore(ts: seq<Token>, t: Token)
    requires PlainTokens(ts) && PlainToken(t)
    ensures PlainTokens(ts + [t]) && FollowAll(ORIGIN, ts + [t]) == Follow(FollowAll(ORIGIN, ts), t)
  {
    hide Follow, PlainToken;
    FollowConcat(ORIGIN, ts, [t]);
    FollowOne(FollowAll(ORIGIN, ts), t);
  }

  lemma {:induction false} TowerScans(n: nat)
    ensures PlainTokens(Tower("div", n)) && FollowAll(ORIGIN, Tower("div", n)).depth == n
    ensures FollowAll(ORIGIN, Tower("div", n)).deepest == n
  {
    hide PlainToken, Follow;
    if n > 0 {
      hide FollowAll;
      TowerScans(n - 1);
      DivTokens(FollowAll(ORIGIN, Tower("div", n - 1)));
      FollowOneMore(Tower("div", n - 1), Open("div", []));
    }
  }

  /** 2048 open elements are accepted and one more is rejected. */
  lemma TheLimitIsExact(n: nat)
    ensures Deepest(Utf8(PrintTokens(Tower("div", n)))) > MAX_PREPARSE_DEPTH <==> n > 2048
  {
    hide Deepest, PrintTokens, Utf8;
    TowerScans(n);
    ScanOf(Tower("div", n));
  }

  function SlashedTower(n: nat): seq<Token> { if n == 0 then [] else SlashedTower(n - 1) + [Slashed("div", [])] }

  lemma {:induction false} SlashedFollows(n: nat)
    ensures var ts := SlashedTower(n);
            && PlainTokens(ts) && FollowAll(ORIGIN, ts).open == FollowAll(ORIGIN, ts).height == n
            && FollowAll(ORIGIN, ts).depth == FollowAll(ORIGIN, ts).deepest == 0
  {
    hide PlainToken, Follow;
    if n > 0 {
      hide FollowAll;
      SlashedFollows(n - 1);
      DivTokens(FollowAll(ORIGIN, SlashedTower(n - 1)));
      FollowOneMore(SlashedTower(n - 1), Slashed("div", []));
    }
  }

  /**
   The slash that ends an opening tag hides it from the scanner, although HTML disregards it on a div: for every n there
   is a text that opens n elements and scans to nothing.
   */
  lemma SlashedTagsAreNotCounted(n: nat)
    ensures FollowAll(ORIGIN, SlashedTower(n)).open == n
    ensures Deepest(Utf8(PrintTokens(SlashedTower(n)))) == 0
  {
    hide Deepest, PrintTokens, Utf8, SlashedTower, FollowAll;
    SlashedFollows(n);
    ScanOf(SlashedTower(n));
  }

  // ----- When the scanner counts what is open

  function After(ts: seq<Token>, i: nat): Track
    requires i <= |ts|
  {
    FollowAll(ORIGIN, ts[..i])
  }

  /** A tag that opens an element uncounted, by its slash or its name, or a script or style inside an element. */
  predicate MiscountsAt(k: Track, t: Token) {
    match t
    case Slashed(tag, _) => !IsVoid(tag)
    case Open(tag, _) => !IsVoid(tag) && Repeats(k.last, tag)
    case Raw(_, _, _) => k.open > 0
    case _ => false
  }

  predicate Miscounts(ts: seq<Token>, i: nat)
    requires i < |ts|
  {
    MiscountsAt(After(ts, i), ts[i])
  }

  predicate Counted(ts: seq<Token>, i: nat)
    requires i <= |ts|
  {
    After(ts, i).depth == After(ts, i).open
  }

  /** No more elements are closed than were opened. */
  predicate Balanced(ts: seq<Token>) { forall i :: 0 <= i <= |ts| ==> After(ts, i).open >= 0 }

  lemma CountStep(k: Track, t: Token)
    requires k.depth == k.open && Follow(k, t).open >= 0
    ensures Follow(k, t).depth == Follow(k, t).open <==> !MiscountsAt(k, t)
  {
    hide IsVoid, Repeats;
  }

  /**
   On tokens that close no more than they open the scanner's depth is the number of open elements throughout exactly if
   none of these miscounts.
   */
  lemma {:induction false} CountsExactlyWhen(ts: seq<Token>)
    requires Balanced(ts)
    ensures (forall i :: 0 <= i <= |ts| ==> Counted(ts, i)) <==> forall i :: 0 <= i < |ts| ==> !Miscounts(ts, i)
  {
    hide Follow, MiscountsAt;
    if ts == [] {
      assert Counted(ts, 0);
    } else {
      var n := |ts| - 1;
      var front := ts[..n];
      assert forall i :: 0 <= i <= n ==> front[..i] == ts[..i];
      assert forall i :: 0 <= i <= n ==> After(front, i) == After(ts, i) && Counted(front, i) == Counted(ts, i);
      assert forall i :: 0 <= i < n ==> Miscounts(front, i) == Miscounts(ts, i);
      CountsExactlyWhen(front);
      assert ts[..|ts|] == ts && After(ts, |ts|) == Follow(After(ts, n), ts[n]);
      if Counted(ts, n) {
        CountStep(After(ts, n), ts[n]);
        assert Counted(ts, |ts|) <==> !Miscounts(ts, n);
      }
    }
  }
}
