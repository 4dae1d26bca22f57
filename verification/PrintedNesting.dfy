/**
 Running the nesting scanner on printed HTML: on what the sanitizer prints, and on documents that
 also hold scripts and styles.  The text is a run of tokens, one for each tag, text, and script or
 style; the scanner's depth after each token is compared with the true one.
 */
module PrintedNesting {
  import opened Common
  import opened UrlIdentity
  import opened Nesting
  import opened Sanitizer
  import opened SanitizerLaws

  // ----- Tokens

  /**
   `Raw` is a whole script or style element, whose text is not escaped.  `Aside` is a comment, doctype or processing
   instruction.  `Slashed` is an opening tag that ends in a slash, and `Stray` is a less-than sign that opens nothing;
   no serializer writes these two.
   */
  datatype Token =
    | Chars(text: string)
    | Open(tag: string, attrs: seq<Attr>)
    | Close(tag: string)
    | Raw(tag: string, attrs: seq<Attr>, text: string)
    | Aside(kind: Note, text: string)
    | Slashed(tag: string, attrs: seq<Attr>)
    | Stray(next: char)

  function Tokens(n: Node): seq<Token>
    decreases n
  {
    match n
    case Text(text) => [Chars(text)]
    case Other(kind, text) => [Aside(kind, text)]
    case Element(tag, attrs, children) =>
      if RawText(tag) then [Raw(tag, attrs, TextOfAll(children))]
      else [Open(tag, attrs)] + TokensAll(children) + (if IsVoid(tag) then [] else [Close(tag)])
  }

  function TokensAll(ns: seq<Node>): seq<Token>
    decreases ns
  {
    if ns == [] then [] else TokensAll(ns[..|ns| - 1]) + Tokens(ns[|ns| - 1])
  }

  function PrintToken(t: Token): string {
    match t
    case Chars(text) => Escaped(text, false)
    case Open(tag, attrs) => OpenTag(tag, attrs)
    case Close(tag) => CloseTag(tag)
    case Raw(tag, attrs, text) => OpenTag(tag, attrs) + text + CloseTag(tag)
    case Aside(kind, text) => PrintNote(kind, text)
    case Slashed(tag, attrs) => "<" + tag + PrintAttrs(attrs) + "/>"
    case Stray(next) => ['<', next]
  }

  function PrintTokens(ts: seq<Token>): string {
    if ts == [] then [] else PrintTokens(ts[..|ts| - 1]) + PrintToken(ts[|ts| - 1])
  }

  lemma {:induction false} PrintTokensConcat(a: seq<Token>, b: seq<Token>)
    ensures PrintTokens(a + b) == PrintTokens(a) + PrintTokens(b)
  {
    hide PrintToken;
    if b == [] {
      assert a + b == a;
    } else {
      assert (a + b)[..|a + b| - 1] == a + b[..|b| - 1];
      PrintTokensConcat(a, b[..|b| - 1]);
    }
  }

  lemma OneToken(t: Token)
    ensures PrintTokens([t]) == PrintToken(t)
  {
    hide PrintToken;
    assert [t][..0] == [];
    assert PrintTokens([t][..0]) == "";
  }

  /** The HTML of a forest, as a serializer writes it: scripts and styles are not escaped. */
  function HtmlOf(ns: seq<Node>): string { PrintTokens(TokensAll(ns)) }

  predicate HasRaw(n: Node)
    decreases n
  {
    n.Element? && (RawText(n.tag) || HasRawAll(n.children))
  }

  predicate HasRawAll(ns: seq<Node>)
    decreases ns
  {
    ns != [] && (HasRawAll(ns[..|ns| - 1]) || HasRaw(ns[|ns| - 1]))
  }

  /** Lower-case tags, and no script or style: what is written is escaped. */
  predicate Escapable(n: Node)
    decreases n
  {
    n.Element? ==> Lower(n.tag) == n.tag && !RawText(n.tag) && EscapableAll(n.children)
  }

  predicate EscapableAll(ns: seq<Node>)
    decreases ns
  {
    ns != [] ==> EscapableAll(ns[..|ns| - 1]) && Escapable(ns[|ns| - 1])
  }

  lemma LowerVoid(tag: string)
    requires Lower(tag) == tag
    ensures IsVoid(tag) == VoidTag(tag)
  {
  }

  lemma {:induction false} TokensPrintTheNode(n: Node)
    requires Escapable(n)
    ensures PrintTokens(Tokens(n)) == Print(n)
    decreases n
  {
    hide PrintToken, IsVoid, VoidTag, OpenTag, CloseTag, Escaped, RawText, PrintNote, Lower;
    match n
    case Text(text) =>
      OneToken(Chars(text));
      TokenPrints("", [], text, Comment);
    case Other(kind, text) =>
      OneToken(Aside(kind, text));
      TokenPrints("", [], text, kind);
    case Element(tag, attrs, children) =>
      var open, close := [Open(tag, attrs)], if IsVoid(tag) then [] else [Close(tag)];
      LowerVoid(tag);
      TokensPrintTheForest(children);
      OneToken(Open(tag, attrs));
      OneToken(Close(tag));
      TokenPrints(tag, attrs, [], Comment);
      PrintTokensConcat(open, TokensAll(children));
      PrintTokensConcat(open + TokensAll(children), close);
  }

  lemma TokenPrints(tag: string, attrs: seq<Attr>, text: string, kind: Note)
    ensures PrintToken(Chars(text)) == Escaped(text, false) && PrintToken(Aside(kind, text)) == PrintNote(kind, text)
    ensures PrintToken(Open(tag, attrs)) == OpenTag(tag, attrs) && PrintToken(Close(tag)) == CloseTag(tag)
  {
  }

  lemma {:induction false} TokensPrintTheForest(ns: seq<Node>)
    requires EscapableAll(ns)
    ensures HtmlOf(ns) == PrintAll(ns)
    decreases ns
  {
    hide Print, Tokens, Escapable;
    if ns != [] {
      TokensPrintTheForest(ns[..|ns| - 1]);
      TokensPrintTheNode(ns[|ns| - 1]);
      PrintTokensConcat(TokensAll(ns[..|ns| - 1]), Tokens(ns[|ns| - 1]));
    }
  }

  // ----- Tokens that can be told apart again

  predicate IsName(name: string) {
    name != [] && IsAlphabetic(name[0]) && forall i :: 0 <= i < |name| ==> IsNameByte(name[i])
  }

  predicate PlainTag(tag: string) { IsName(tag) && !RawText(tag) }

  predicate PlainAttrs(attrs: seq<Attr>) { forall i :: 0 <= i < |attrs| ==> IsName(attrs[i].0) }

  /** The text of a script or style cannot hold what would end it. */
  predicate NoCloser(b: Bytes, tag: string) { forall i :: 0 <= i < |b| ==> !OccursAt(b, i, Closer(tag), true) }

  predicate Nowhere(b: Bytes, needle: Bytes) { forall i :: 0 <= i < |b| ==> !OccursAt(b, i, needle, false) }

  /** The text of a note cannot hold what would end it, and a doctype does not look like a comment. */
  predicate PlainNote(kind: Note, text: string) {
    match kind
    case Comment => Nowhere(Utf8(text), "-->")
    case Doctype => '>' !in text && !("--" <= text)
    case Instruction => '>' !in text
  }

  predicate PlainToken(t: Token) {
    match t
    case Chars(_) => true
    case Open(tag, attrs) => PlainTag(tag) && PlainAttrs(attrs)
    case Close(tag) => PlainTag(tag)
    case Raw(tag, attrs, text) => IsName(tag) && RawText(tag) && PlainAttrs(attrs) && NoCloser(Utf8(text), tag)
    case Aside(kind, text) => PlainNote(kind, text)
    case Slashed(tag, attrs) => PlainTag(tag) && PlainAttrs(attrs)
    case Stray(next) => !IsAlphabetic(next) && next !in {'<', '!', '/', '?'}
  }

  predicate PlainTokens(ts: seq<Token>) { forall i :: 0 <= i < |ts| ==> PlainToken(ts[i]) }

  lemma AllowedLetters(tag: string)
    requires Allowed(tag)
    ensures tag != [] && 'a' <= tag[0] <= 'z'
    ensures forall i :: 0 <= i < |tag| ==> 'a' <= tag[i] <= 'z' || '0' <= tag[i] <= '9'
    ensures tag != "script" && tag != "style"
  {
  }

  lemma AllowedTagsArePlain(tag: string)
    requires Allowed(tag)
    ensures PlainTag(tag) && Lower(tag) == tag
  {
    hide Lower, Allowed;
    AllowedLetters(tag);
    LowerNamesAreLower(tag);
  }

  lemma LowerNamesAreLower(tag: string)
    requires forall i :: 0 <= i < |tag| ==> LowerChar(tag[i]) == tag[i]
    ensures Lower(tag) == tag
  {
    hide Lower;
  }

  lemma {:induction false} SafeTokensArePlain(o: Options, n: Node)
    requires Safe(o, n)
    ensures PlainTokens(Tokens(n))
    decreases n
  {
    hide Allowed, ArticleTag, IsVoid, HttpUrl, IsName;
    if n.Element? {
      AllowedIsArticle(n.tag);
      AllowedTagsArePlain(n.tag);
      SafeTokensOfAllArePlain(o, n.children);
      forall i | 0 <= i < |n.attrs|
        ensures IsName(n.attrs[i].0)
      {
        SafeAttrNames(o, n.tag, n.attrs[i]);
      }
    }
  }

  lemma SafeAttrNames(o: Options, tag: string, attr: Attr)
    requires SafeAttr(o, tag, attr)
    ensures IsName(attr.0)
  {
    hide HttpUrl;
    assert attr.0 in {"href", "src", "alt", "title", "datetime"};
  }

  lemma {:induction false} SafeIsEscapable(o: Options, n: Node)
    requires Safe(o, n)
    ensures Escapable(n)
    decreases n
  {
    hide Allowed, ArticleTag, SafeAttrs, Lower, RawText;
    if n.Element? {
      AllowedIsArticle(n.tag);
      AllowedTagsArePlain(n.tag);
      SafeForestIsEscapable(o, n.children);
    }
  }

  lemma {:induction false} SafeForestIsEscapable(o: Options, ns: seq<Node>)
    requires SafeAll(o, ns)
    ensures EscapableAll(ns)
    decreases ns
  {
    hide Safe, Escapable;
    if ns != [] {
      SafeForestIsEscapable(o, ns[..|ns| - 1]);
      SafeIsEscapable(o, ns[|ns| - 1]);
    }
  }

  lemma {:induction false} SafeTokensOfAllArePlain(o: Options, ns: seq<Node>)
    requires SafeAll(o, ns)
    ensures PlainTokens(TokensAll(ns))
    decreases ns
  {
    hide Safe, Tokens, PlainToken;
    if ns != [] {
      SafeTokensOfAllArePlain(o, ns[..|ns| - 1]);
      SafeTokensArePlain(o, ns[|ns| - 1]);
    }
  }

  // ----- Following the tokens

  /**
   What the scanner counts next to the true number of open elements; whether an opening tag went uncounted, as one
   that repeats the last or ends in a slash, which HTML disregards; and whether a script or style was met inside an
   element.  Scripts and styles, which hold only text, are not counted as open elements themselves.
   */
  datatype Track = Track(depth: nat, deepest: nat, last: Option<string>, open: int, height: int, low: int,
                         repeats: bool, nested: bool)

  const ORIGIN := Track(0, 0, None, 0, 0, 0, false, false)

  predicate Repeats(last: Option<string>, tag: string) { IsAutoClosing(tag) && last == Some(tag) }

  function Follow(k: Track, t: Token): Track {
    match t
    case Chars(_) => k
    case Open(tag, _) =>
      if IsVoid(tag) then k
      else
        var open := k.open + 1;
        if Repeats(k.last, tag) then k.(open := open, height := Max(k.height, open), repeats := true)
        else k.(depth := k.depth + 1, deepest := Max(k.deepest, k.depth + 1), last := Some(tag), open := open,
                height := Max(k.height, open))
    case Close(_) => k.(depth := Max(k.depth - 1, 0), last := None, open := k.open - 1, low := Min(k.low, k.open - 1))
    case Aside(_, _) => k
    case Stray(_) => k
    case Slashed(tag, _) =>
      if IsVoid(tag) then k
      else k.(open := k.open + 1, height := Max(k.height, k.open + 1), repeats := true)
    case Raw(_, _, _) => k.(depth := Max(k.depth - 1, 0), last := None, nested := k.nested || k.open > 0)
  }

  function FollowAll(k: Track, ts: seq<Token>): Track {
    if ts == [] then k else Follow(FollowAll(k, ts[..|ts| - 1]), ts[|ts| - 1])
  }

  lemma {:induction false} FollowConcat(k: Track, a: seq<Token>, b: seq<Token>)
    ensures FollowAll(k, a + b) == FollowAll(FollowAll(k, a), b)
  {
    hide Follow;
    if b == [] {
      assert a + b == a;
    } else {
      assert (a + b)[..|a + b| - 1] == a + b[..|b| - 1];
      FollowConcat(k, a, b[..|b| - 1]);
    }
  }

  lemma FollowOne(k: Track, t: Token)
    ensures FollowAll(k, [t]) == Follow(k, t)
  {
    hide Follow;
    assert [t][..0] == [];
    assert FollowAll(k, [t][..0]) == k;
  }

  /** The name of the first opening tag that has a closing one. */
  function FirstOpen(n: Node): Option<string>
    decreases n
  {
    if !n.Element? then None else if IsVoid(n.tag) then FirstOpenOf(n.children) else Some(n.tag)
  }

  function FirstOpenOf(ns: seq<Node>): Option<string>
    decreases ns
  {
    if ns == [] then None else
      var first := FirstOpenOf(ns[..|ns| - 1]);
      if first.Some? then first else FirstOpen(ns[|ns| - 1])
  }

  predicate RepeatsFirst(last: Option<string>, first: Option<string>) { first.Some? && Repeats(last, first.value) }

  /** No auto-closing element begins with an element of its own name. */
  predicate Distinct(n: Node)
    decreases n
  {
    n.Element? && !RawText(n.tag) ==>
      (IsVoid(n.tag) || !RepeatsFirst(Some(n.tag), FirstOpenOf(n.children))) && DistinctAll(n.children)
  }

  predicate DistinctAll(ns: seq<Node>)
    decreases ns
  {
    ns != [] ==> DistinctAll(ns[..|ns| - 1]) && Distinct(ns[|ns| - 1])
  }

  /** A script or style stands inside an element. */
  predicate RawInside(n: Node)
    decreases n
  {
    n.Element? && !RawText(n.tag) && ((!IsVoid(n.tag) && HasRawAll(n.children)) || RawInsideAll(n.children))
  }

  predicate RawInsideAll(ns: seq<Node>)
    decreases ns
  {
    ns != [] && (RawInsideAll(ns[..|ns| - 1]) || RawInside(ns[|ns| - 1]))
  }

  /** How many elements that have a closing tag, other than scripts and styles, are open at once. */
  function Nest(n: Node): nat
    decreases n
  {
    if n.Element? && !RawText(n.tag) then (if IsVoid(n.tag) then 0 else 1) + NestingOf(n.children) else 0
  }

  function NestingOf(ns: seq<Node>): nat
    decreases ns
  {
    if ns == [] then 0 else Max(NestingOf(ns[..|ns| - 1]), Nest(ns[|ns| - 1]))
  }

  lemma {:induction false} NestingIsHeight(n: Node)
    requires Escapable(n)
    ensures Nest(n) == Height(n)
    decreases n
  {
    hide IsVoid, VoidTag, RawText, Lower;
    if n.Element? {
      LowerVoid(n.tag);
      NestingOfIsHeight(n.children);
    }
  }

  lemma {:induction false} NestingOfIsHeight(ns: seq<Node>)
    requires EscapableAll(ns)
    ensures NestingOf(ns) == HeightAll(ns)
    decreases ns
  {
    hide Nest, Height, Escapable;
    if ns != [] {
      NestingOfIsHeight(ns[..|ns| - 1]);
      NestingIsHeight(ns[|ns| - 1]);
    }
  }

  /** What following a forest depends on. */
  datatype Shape = Shape(first: Option<string>, nesting: nat, distinct: bool, raw: bool, inside: bool)

  function ShapeOf(n: Node): Shape { Shape(FirstOpen(n), Nest(n), Distinct(n), HasRaw(n), RawInside(n)) }

  function ShapeOfAll(ns: seq<Node>): Shape {
    Shape(FirstOpenOf(ns), NestingOf(ns), DistinctAll(ns), HasRawAll(ns), RawInsideAll(ns))
  }

  /** A node opens and closes: the true depth returns to where it was, after rising by the node's nesting. */
  ghost predicate Returns(k: Track, after: Track, p: Shape) {
    && after.open == k.open && after.height == Max(k.height, k.open + p.nesting)
    && after.low == k.low
    && after.last == (if p.first.Some? then None else k.last)
    && after.repeats == (k.repeats || RepeatsFirst(k.last, p.first) || !p.distinct)
    && after.nested == (k.nested || (k.open > 0 && p.raw) || p.inside)
  }

  lemma RawNeverRepeats(last: Option<string>, tag: string)
    requires RawText(tag)
    ensures !Repeats(last, tag)
  {
  }

  lemma {:induction false} NodeReturns(k: Track, n: Node)
    requires k.low <= k.open <= k.height && 0 <= k.open
    ensures Returns(k, FollowAll(k, Tokens(n)), ShapeOf(n))
    decreases n, 2
  {
    hide IsVoid, Repeats, RawText, TokensAll, NestingOf, FirstOpenOf, DistinctAll, HasRawAll, RawInsideAll;
    NothingRepeatsAtFirst(FirstOpen(n));
    match n
    case Text(text) =>
      FollowOne(k, Chars(text));
    case Other(kind, text) =>
      FollowOne(k, Aside(kind, text));
    case Element(tag, attrs, children) =>
      if RawText(tag) {
        FollowOne(k, Raw(tag, attrs, TextOfAll(children)));
        RawNeverRepeats(k.last, tag);
        RawIsNotVoid(tag);
      } else {
        ElementReturns(k, tag, attrs, children);
      }
  }

  lemma RawIsNotVoid(tag: string)
    requires RawText(tag)
    ensures !IsVoid(tag)
  {
  }

  function AfterOpen(k: Track, tag: string, attrs: seq<Attr>, children: seq<Node>): Track {
    FollowAll(Follow(k, Open(tag, attrs)), TokensAll(children))
  }

  lemma ElementFollows(k: Track, tag: string, attrs: seq<Attr>, children: seq<Node>)
    requires !RawText(tag)
    ensures var after := AfterOpen(k, tag, attrs, children);
            FollowAll(k, Tokens(Element(tag, attrs, children))) == if IsVoid(tag) then after
                else Follow(after, Close(tag))
  {
    hide IsVoid, RawText, TokensAll, Follow;
    var open, close := Open(tag, attrs), Close(tag);
    FollowOne(k, open);
    FollowConcat(k, [open], TokensAll(children));
    FollowConcat(k, [open] + TokensAll(children), if IsVoid(tag) then [] else [close]);
    FollowOne(AfterOpen(k, tag, attrs, children), close);
  }

  lemma {:induction false} ElementReturns(k: Track, tag: string, attrs: seq<Attr>, children: seq<Node>)
    requires k.low <= k.open <= k.height && 0 <= k.open && !RawText(tag)
    ensures Returns(k, FollowAll(k, Tokens(Element(tag, attrs, children))), ShapeOf(Element(tag, attrs, children)))
    decreases children, 1
  {
    hide IsVoid, Repeats, RawText, Tokens, TokensAll, NestingOf, FirstOpenOf, DistinctAll, HasRawAll, RawInsideAll,
         FollowAll;
    ElementFollows(k, tag, attrs, children);
    ForestReturns(Follow(k, Open(tag, attrs)), children);
  }

  lemma {:induction false} ForestReturns(k: Track, ns: seq<Node>)
    requires k.low <= k.open <= k.height && 0 <= k.open
    ensures Returns(k, FollowAll(k, TokensAll(ns)), ShapeOfAll(ns))
    decreases ns, 0
  {
    hide Tokens, FirstOpen, Nest, Distinct, HasRaw, RawInside, Repeats;
    NothingRepeatsAtFirst(if ns == [] then None else FirstOpen(ns[|ns| - 1]));
    if ns != [] {
      ForestReturns(k, ns[..|ns| - 1]);
      NodeReturns(FollowAll(k, TokensAll(ns[..|ns| - 1])), ns[|ns| - 1]);
      FollowConcat(k, TokensAll(ns[..|ns| - 1]), Tokens(ns[|ns| - 1]));
    }
  }

  /**
   While no more closes than opens are seen, the scanner never counts too much, and counts exactly unless a tag
   repeats or a script or style stands inside an element.
   */
  predicate Follows(k: Track) {
    && k.low <= k.open <= k.height
    && (k.low >= 0 ==> k.depth <= k.open && k.deepest <= k.height)
    && (k.low >= 0 && !k.repeats && !k.nested ==> k.depth == k.open && k.deepest == k.height)
  }

  lemma {:induction false} TrackFollows(ts: seq<Token>)
    ensures Follows(FollowAll(ORIGIN, ts)) && FollowAll(ORIGIN, ts).low <= 0
  {
    hide Follows, Follow;
    if ts == [] {
      OriginFollows();
    } else {
      TrackFollows(ts[..|ts| - 1]);
      FollowsStep(FollowAll(ORIGIN, ts[..|ts| - 1]), ts[|ts| - 1]);
    }
  }

  lemma OriginFollows()
    ensures Follows(ORIGIN)
  {
  }

  lemma FollowsStep(k: Track, t: Token)
    requires Follows(k) && k.low <= 0
    ensures Follows(Follow(k, t)) && Follow(k, t).low <= 0
  {
    hide IsVoid, Repeats;
  }

  /** Later tokens only lower `low` and only set `repeats` and `nested`. */
  lemma {:induction false} TrackIsMonotone(ts: seq<Token>, i: nat)
    requires i <= |ts|
    ensures FollowAll(ORIGIN, ts).low <= FollowAll(ORIGIN, ts[..i]).low
    ensures FollowAll(ORIGIN, ts[..i]).repeats ==> FollowAll(ORIGIN, ts).repeats
    ensures FollowAll(ORIGIN, ts[..i]).nested ==> FollowAll(ORIGIN, ts).nested
  {
    hide IsVoid, Repeats;
    if i == |ts| {
      assert ts[..i] == ts;
    } else {
      assert ts[..|ts| - 1][..i] == ts[..i];
      TrackIsMonotone(ts[..|ts| - 1], i);
    }
  }

  /** No auto-closing element begins with its own name, and no script or style stands inside an element. */
  predicate Exact(ns: seq<Node>) { DistinctAll(ns) && !RawInsideAll(ns) }

  /** After every token of a printed forest the scanner's depth is at most the number of open elements. */
  lemma DepthIsAtMostNesting(ns: seq<Node>, i: nat)
    requires i <= |TokensAll(ns)|
    ensures var k := FollowAll(ORIGIN, TokensAll(ns)[..i]);
            && k.depth <= k.open && k.deepest <= k.height
            && (Exact(ns) ==> k.depth == k.open && k.deepest == k.height)
  {
    hide Follow, TokensAll, NestingOf, FirstOpenOf, DistinctAll, HasRawAll, RawInsideAll;
    ForestReturns(ORIGIN, ns);
    TrackIsMonotone(TokensAll(ns), i);
    TrackFollows(TokensAll(ns)[..i]);
    NothingRepeatsAtFirst(FirstOpenOf(ns));
  }

  lemma NothingRepeatsAtFirst(first: Option<string>)
    ensures !RepeatsFirst(None, first)
  {
  }

  /** The first tag that goes uncounted, or counts twice, leaves the scanner below the true depth. */
  lemma {:induction false} FirstMissFallsShort(ts: seq<Token>) returns (i: nat)
    requires (FollowAll(ORIGIN, ts).repeats || FollowAll(ORIGIN, ts).nested) && FollowAll(ORIGIN, ts).low >= 0
    ensures i <= |ts| && FollowAll(ORIGIN, ts[..i]).depth < FollowAll(ORIGIN, ts[..i]).open
  {
    hide IsVoid, Repeats;
    var front := ts[..|ts| - 1];
    TrackIsMonotone(ts, |front|);
    if FollowAll(ORIGIN, front).repeats || FollowAll(ORIGIN, front).nested {
      i := FirstMissFallsShort(front);
      assert front[..i] == ts[..i];
    } else {
      i := |ts|;
      assert ts[..i] == ts;
      TrackFollows(front);
    }
  }

  /**
   The scanner's depth is the true one throughout exactly if no auto-closing element begins with an element
   of its own name and no script or style stands inside an element.
   */
  lemma DepthIsExactUnlessATagRepeats(ns: seq<Node>)
    ensures Exact(ns) <==>
            forall i :: 0 <= i <= |TokensAll(ns)| ==>
                FollowAll(ORIGIN, TokensAll(ns)[..i]).depth == FollowAll(ORIGIN, TokensAll(ns)[..i]).open
  {
    hide Follow, TokensAll, NestingOf, FirstOpenOf, DistinctAll, HasRawAll, RawInsideAll, FollowAll;
    var ts := TokensAll(ns);
    if Exact(ns) {
      forall i | 0 <= i <= |ts|
        ensures FollowAll(ORIGIN, ts[..i]).depth == FollowAll(ORIGIN, ts[..i]).open
      {
        DepthIsAtMostNesting(ns, i);
      }
    } else {
      ForestReturns(ORIGIN, ns);
      var i := FirstMissFallsShort(ts);
      assert 0 <= i <= |ts|;
    }
  }

  // ----- The scanner on one token

  predicate Here(b: Bytes, i: nat, part: Bytes) { i + |part| <= |b| && b[i..i + |part|] == part }

  lemma HereSplits(b: Bytes, i: nat, first: Bytes, rest: Bytes)
    ensures Here(b, i, first + rest) <==> Here(b, i, first) && Here(b, i + |first|, rest)
  {
    if Here(b, i, first) && Here(b, i + |first|, rest) {
      assert b[i..i + |first + rest|] == b[i..i + |first|] + b[i + |first|..i + |first| + |rest|];
    }
    if Here(b, i, first + rest) {
      assert b[i..i + |first|] == b[i..i + |first + rest|][..|first|];
      assert b[i + |first|..i + |first| + |rest|] == b[i..i + |first + rest|][|first|..];
    }
  }

  lemma ByteAt(b: Bytes, i: nat, part: Bytes, p: nat)
    requires Here(b, i, part) && p < |part|
    ensures i + p < |b| && b[i + p] == part[p]
  {
    assert b[i..i + |part|][p] == b[i + p];
  }

  lemma {:induction false} EscapedChars(s: string, quoted: bool, c: char)
    requires c in Escaped(s, quoted)
    ensures c != '<' && (quoted ==> c != '"')
  {
    if c in Escaped(s[..|s| - 1], quoted) {
      EscapedChars(s[..|s| - 1], quoted, c);
    } else {
      assert c in EscapeChar(s[|s| - 1], quoted);
    }
  }

  lemma {:induction false} ScanPassesText(b: Bytes, s: Scan, to: nat)
    requires s.index <= to <= |b|
    requires forall p :: s.index <= p < to ==> b[p] != '<'
    ensures ScanFrom(b, s) == ScanFrom(b, s.(index := to))
    decreases |b| - s.index
  {
    hide ScanFrom, AfterTag, Find, TagEnd;
    if s.index < to {
      ScanStep(b, s);
      ScanPassesText(b, s.(index := s.index + 1), to);
    }
  }

  lemma {:induction false} TagEndPasses(b: Bytes, i: nat, to: nat)
    requires i <= to <= |b| && forall p :: i <= p < to ==> b[p] !in {'>', '"', '\'', '/'}
    ensures TagEnd(b, i) == TagEnd(b, to)
    decreases |b| - i
  {
    hide TagEnd;
    if i < to {
      TagEndStep(b, i);
      TagEndPasses(b, i + 1, to);
    }
  }

  lemma {:induction false} QuoteEndsAt(b: Bytes, i: nat, at: nat)
    requires i <= at < |b| && b[at] == '"' && forall p :: i <= p < at ==> b[p] != '"'
    ensures PastQuote(b, i, '"') == at + 1
    decreases |b| - i
  {
    hide PastQuote;
    PastQuoteStep(b, i, '"');
    if i < at {
      QuoteEndsAt(b, i + 1, at);
    }
  }

  lemma {:induction false} NameEndsAt(b: Bytes, i: nat, at: nat)
    requires i <= at < |b| && !IsNameByte(b[at]) && forall p :: i <= p < at ==> IsNameByte(b[p])
    ensures NameEnd(b, i) == at
    decreases |b| - i
  {
    hide NameEnd;
    NameEndStep(b, i);
    if i < at {
      NameEndsAt(b, i + 1, at);
    }
  }

  lemma PrintedAttr(attr: Attr)
    requires IsName(attr.0)
    ensures Utf8(PrintAttr(attr)) == (" " + attr.0 + "=") + ("\"" + Utf8(Escaped(attr.1, true)) + "\"")
  {
    hide Utf8, Escaped;
    var start, value := " " + attr.0 + "=\"", Escaped(attr.1, true);
    Utf8Concat(start + value, "\"");
    Utf8Concat(start, value);
    AsciiIsItself(start);
    AsciiIsItself("\"");
    assert PrintAttr(attr) == start + value + "\"";
    assert start == (" " + attr.0 + "=") + "\"";
  }

  lemma ValueHasNoQuote(value: string)
    ensures '"' !in Utf8(Escaped(value, true))
  {
    if '"' in Utf8(Escaped(value, true)) {
      AsciiByteIsAChar(Escaped(value, true), '"');
      EscapedChars(value, true, '"');
    }
  }

  lemma TagEndPassesName(b: Bytes, i: nat, name: string)
    requires IsName(name) && Here(b, i, " " + name + "=")
    ensures TagEnd(b, i) == TagEnd(b, i + |name| + 2)
  {
    hide TagEnd, Here;
    var part := " " + name + "=";
    forall p | i <= p < i + |part|
      ensures p < |b| && b[p] !in {'>', '"', '\'', '/'}
    {
      ByteAt(b, i, part, p - i);
    }
    ByteAt(b, i, part, |part| - 1);
    TagEndPasses(b, i, i + |part|);
  }

  lemma TagEndPassesQuoted(b: Bytes, i: nat, value: Bytes)
    requires '"' !in value && Here(b, i, "\"" + value + "\"")
    ensures TagEnd(b, i) == TagEnd(b, i + |value| + 2)
  {
    hide TagEnd, PastQuote, Here;
    var quoted := "\"" + value + "\"";
    ByteAt(b, i, quoted, 0);
    ByteAt(b, i, quoted, |value| + 1);
    forall p | i + 1 <= p < i + 1 + |value|
      ensures b[p] != '"'
    {
      ByteAt(b, i, quoted, p - i);
      assert quoted[p - i] == value[p - i - 1];
    }
    QuoteEndsAt(b, i + 1, i + 1 + |value|);
    TagEndStep(b, i);
  }

  /** An attribute holds no end of the tag: its name is plain and its value is quoted and escaped. */
  lemma TagEndPassesAttr(b: Bytes, i: nat, attr: Attr)
    requires Here(b, i, Utf8(PrintAttr(attr))) && IsName(attr.0)
    ensures TagEnd(b, i) == TagEnd(b, i + |Utf8(PrintAttr(attr))|)
  {
    hide TagEnd, Utf8, Escaped, Here, IsName;
    var value := Utf8(Escaped(attr.1, true));
    PrintedAttr(attr);
    HereSplits(b, i, " " + attr.0 + "=", "\"" + value + "\"");
    TagEndPassesName(b, i, attr.0);
    ValueHasNoQuote(attr.1);
    TagEndPassesQuoted(b, i + |attr.0| + 2, value);
  }

  lemma {:induction false} TagEndPassesAttrs(b: Bytes, i: nat, attrs: seq<Attr>)
    requires Here(b, i, Utf8(PrintAttrs(attrs))) && PlainAttrs(attrs)
    ensures TagEnd(b, i) == TagEnd(b, i + |Utf8(PrintAttrs(attrs))|)
  {
    hide TagEnd, PrintAttr, IsName, Utf8, Here;
    AsciiIsItself([]);
    if attrs != [] {
      var front, last := PrintAttrs(attrs[..|attrs| - 1]), PrintAttr(attrs[|attrs| - 1]);
      Utf8Concat(front, last);
      HereSplits(b, i, Utf8(front), Utf8(last));
      TagEndPassesAttrs(b, i, attrs[..|attrs| - 1]);
      TagEndPassesAttr(b, i + |Utf8(front)|, attrs[|attrs| - 1]);
    }
  }

  /** What follows the name in a printed opening tag: nothing, or attributes that end in a quote. */
  lemma AttrsFrame(attrs: seq<Attr>)
    requires PlainAttrs(attrs)
    ensures var a := Utf8(PrintAttrs(attrs)); a != [] ==> a[0] == ' ' && a[|a| - 1] == '"'
  {
    hide PrintAttr, IsName;
    if attrs != [] {
      var front, last := PrintAttrs(attrs[..|attrs| - 1]), PrintAttr(attrs[|attrs| - 1]);
      Utf8Concat(front, last);
      PrintedAttr(attrs[|attrs| - 1]);
      AttrsFrame(attrs[..|attrs| - 1]);
    }
  }

  lemma NameIsAscii(tag: string)
    requires IsName(tag)
    ensures Utf8(tag) == tag
  {
    hide Utf8;
    AsciiIsItself(tag);
  }

  lemma PlainTagIsName(tag: string)
    requires PlainTag(tag)
    ensures IsName(tag) && !RawText(tag)
  {
  }

  lemma PrintedOpen(tag: string, attrs: seq<Attr>)
    requires IsName(tag)
    ensures Utf8(OpenTag(tag, attrs)) == ("<" + tag) + (Utf8(PrintAttrs(attrs)) + ">")
  {
    hide Utf8, PrintAttrs;
    NameIsAscii(tag);
    var inner := PrintAttrs(attrs);
    Utf8Concat("<" + tag + inner, ">");
    Utf8Concat("<" + tag, inner);
    AsciiIsItself("<" + tag);
    AsciiIsItself(">");
  }

  /** Where the parts of a printed opening tag lie. */
  lemma OpenTagParts(b: Bytes, i: nat, tag: string, attrs: seq<Attr>)
    requires IsName(tag) && PlainAttrs(attrs) && Here(b, i, Utf8(OpenTag(tag, attrs)))
    ensures var nameEnd, end := i + 1 + |tag|, i + |Utf8(OpenTag(tag, attrs))|;
            && i + 1 < nameEnd < end <= |b| && b[i] == '<' && IsAlphabetic(b[i + 1])
            && NameEnd(b, i + 1) == nameEnd && b[i + 1..nameEnd] == tag
            && TagEnd(b, nameEnd) == (end, true) && b[end - 2] != '/'
  {
    hide Utf8, OpenTag, PrintAttrs, TagEnd, NameEnd, RawText, IsVoid, IsAutoClosing, IsName, Here;
    var start, a := "<" + tag, Utf8(PrintAttrs(attrs));
    var nameEnd := i + |start|;
    PrintedOpen(tag, attrs);
    HereSplits(b, i, start, a + ">");
    NameParts(b, i, tag);
    HereSplits(b, nameEnd, a, ">");
    AttrsParts(b, nameEnd, attrs);
    NameEndsAt(b, i + 1, nameEnd);
  }

  lemma NameParts(b: Bytes, i: nat, tag: string)
    requires IsName(tag) && Here(b, i, "<" + tag)
    ensures var nameEnd := i + 1 + |tag|;
            && i + 1 < nameEnd <= |b| && b[i] == '<' && IsAlphabetic(b[i + 1]) && b[i + 1..nameEnd] == tag
            && (forall p :: i + 1 <= p < nameEnd ==> IsNameByte(b[p])) && b[nameEnd - 1] != '/'
  {
    hide IsNameByte, IsAlphabetic;
    ByteAt(b, i, "<" + tag, 0);
    HereSplits(b, i, "<", tag);
    forall p | i + 1 <= p < i + 1 + |tag|
      ensures IsNameByte(b[p]) && b[p] == tag[p - i - 1]
    {
      ByteAt(b, i + 1, tag, p - i - 1);
    }
    SlashIsNoName();
  }

  lemma SlashIsNoName()
    ensures !IsNameByte('/')
  {
  }

  lemma AttrsParts(b: Bytes, i: nat, attrs: seq<Attr>)
    requires PlainAttrs(attrs)
    requires i > 0 && Here(b, i, Utf8(PrintAttrs(attrs))) && Here(b, i + |Utf8(PrintAttrs(attrs))|, ">")
    ensures var end := i + |Utf8(PrintAttrs(attrs))| + 1;
            && i < end <= |b| && !IsNameByte(b[i]) && TagEnd(b, i) == (end, true) &&
                (b[i - 1] != '/' ==> b[end - 2] != '/')
  {
    hide Utf8, PrintAttrs, TagEnd, IsName;
    var a := Utf8(PrintAttrs(attrs));
    AttrsFrame(attrs);
    ByteAt(b, i + |a|, ">", 0);
    if a != [] {
      ByteAt(b, i, a, 0);
      ByteAt(b, i, a, |a| - 1);
    }
    TagEndPassesAttrs(b, i, attrs);
    TagEndStep(b, i + |a|);
  }

  lemma AfterPrintedTag(b: Bytes, s: Scan, tag: string, end: nat)
    requires PlainTag(tag) && s.index + 2 <= end <= |b| && b[end - 2] != '/'
    ensures AfterNamed(b, s, tag, end, true) == Some(if IsVoid(tag) then s.(index := end) else Opened(s, tag, end))
  {
    PlainTagIsName(tag);
    hide RawText, Closer, IsVoid, Opened, PlainTag, Find;
  }

  lemma ScanPassesOpen(b: Bytes, s: Scan, tag: string, attrs: seq<Attr>)
    requires PlainToken(Open(tag, attrs)) && Here(b, s.index, Utf8(OpenTag(tag, attrs)))
    ensures s.index + |Utf8(OpenTag(tag, attrs))| <= |b|
    ensures var end := s.index + |Utf8(OpenTag(tag, attrs))|;
            ScanFrom(b, s) == ScanFrom(b, if IsVoid(tag) then s.(index := end) else Opened(s, tag, end))
  {
    hide Here, Utf8, OpenTag, TagEnd, NameEnd, AfterNamed, IsVoid, ScanFrom, Opened, PlainTag, IsName, Find, IsNameByte;
    PlainTagIsName(tag);
    OpenTagParts(b, s.index, tag, attrs);
    AfterPrintedTag(b, s, tag, s.index + |Utf8(OpenTag(tag, attrs))|);
    ScanStep(b, s);
    assert Advance(b, s) == AfterTag(b, s);
  }

  lemma ScanPassesClose(b: Bytes, s: Scan, tag: string)
    requires IsName(tag) && Here(b, s.index, Utf8(CloseTag(tag)))
    ensures s.index + |Utf8(CloseTag(tag))| <= |b|
    ensures ScanFrom(b, s) == ScanFrom(b, Scan(s.index + |Utf8(CloseTag(tag))|, Max(s.depth - 1, 0), s.deepest, None))
  {
    hide Utf8, TagEnd, ScanFrom, AfterTag;
    var part := CloseTag(tag);
    AsciiIsItself(part);
    var close := s.index + |part| - 1;
    forall p | 0 <= p < |part|
      ensures b[s.index + p] == part[p]
    {
      ByteAt(b, s.index, part, p);
    }
    forall p | s.index + 2 <= p < close
      ensures b[p] !in {'>', '"', '\'', '/'}
    {
      ByteAt(b, s.index, part, p - s.index);
    }
    ByteAt(b, s.index, part, 0);
    ByteAt(b, s.index, part, 1);
    ByteAt(b, s.index, part, |part| - 1);
    TagEndPasses(b, s.index + 2, close);
    TagEndStep(b, close);
    ScanStep(b, s);
  }

  lemma RawTagFacts(tag: string)
    requires RawText(tag)
    ensures IsName(tag) && |Closer(tag)| == |tag| + 2
    ensures forall p :: 0 <= p < |tag| ==> Closer(tag)[p + 2] == LowerChar(tag[p]) && LowerChar(tag[p]) != '<'
    ensures Closer(tag)[0] == '<' && Closer(tag)[1] == '/'
  {
    hide Lower;
    forall p | 0 <= p < |tag|
      ensures IsAlphabetic(tag[p]) && LowerChar(tag[p]) != '<'
    {
      assert Lower(tag)[p] == LowerChar(tag[p]);
    }
  }

  lemma LowersAlike(a: Bytes, b: Bytes)
    requires |a| == |b| && forall i :: 0 <= i < |a| ==> LowerChar(a[i]) == LowerChar(b[i])
    ensures Lower(a) == Lower(b)
  {
    hide Lower;
  }

  /** The search for the end of a script or style finds its own closing tag. */
  lemma FindsCloser(b: Bytes, from: nat, text: Bytes, tag: string)
    requires RawText(tag) && Here(b, from, text) && Here(b, from + |text|, "</" + tag) && NoCloser(text, tag)
    ensures Find(b, from, Closer(tag), true) == Some(from + |text|)
  {
    hide Find, Here, NoCloser, RawText, OccursAt;
    var at, needle := from + |text|, Closer(tag);
    CloserIsThere(b, at, tag);
    forall i | from <= i < at
      ensures !OccursAt(b, i, needle, true)
    {
      NotBefore(b, from, text, tag, i);
    }
    FirstIsFound(b, from, at, needle, true);
  }

  lemma FirstIsFound(b: Bytes, from: nat, at: nat, needle: Bytes, anyCase: bool)
    requires from <= at < |b| && OccursAt(b, at, needle, anyCase)
    requires forall i :: from <= i < at ==> !OccursAt(b, i, needle, anyCase)
    ensures Find(b, from, needle, anyCase) == Some(at)
  {
    hide OccursAt, Find;
    assert Find(b, from, needle, anyCase).Some?;
  }

  lemma CloserIsThere(b: Bytes, at: nat, tag: string)
    requires RawText(tag) && Here(b, at, "</" + tag)
    ensures at + |Closer(tag)| <= |b| && |Closer(tag)| > 0 && OccursAt(b, at, Closer(tag), true)
  {
    hide Lower, RawText, Closer;
    RawTagFacts(tag);
    var closer, part := Closer(tag), "</" + tag;
    var found := b[at..at + |closer|];
    forall q | 0 <= q < |closer|
      ensures LowerChar(found[q]) == LowerChar(closer[q])
    {
      ByteAt(b, at, part, q);
      if q >= 2 {
        assert closer[q] == LowerChar(tag[q - 2]) && part[q] == tag[q - 2];
      }
    }
    LowersAlike(found, closer);
  }

  lemma SliceOfSlice(b: Bytes, from: nat, to: nat, i: nat, n: nat)
    requires from <= i && i + n <= to <= |b|
    ensures b[from..to][i - from..i - from + n] == b[i..i + n]
  {
    var inner, outer := b[from..to][i - from..i - from + n], b[i..i + n];
    assert forall k :: 0 <= k < n ==> inner[k] == outer[k];
  }

  lemma NotBefore(b: Bytes, from: nat, text: Bytes, tag: string, i: nat)
    requires RawText(tag) && Here(b, from, text) && Here(b, from + |text|, "</" + tag) && NoCloser(text, tag)
    requires from <= i < from + |text|
    ensures !OccursAt(b, i, Closer(tag), true)
  {
    hide Lower, RawText, Closer;
    var at, needle := from + |text|, Closer(tag);
    RawTagFacts(tag);
    if i + |needle| <= at {
      SliceOfSlice(b, from, at, i, |needle|);
      assert !OccursAt(text, i - from, needle, true);
    } else if i + |needle| <= |b| {
      var m := at - i;
      ByteAt(b, at, "</" + tag, 0);
      assert b[i..i + |needle|][m] == '<' && LowerChar('<') == '<';
      assert Lower(b[i..i + |needle|])[m] == '<';
      NeedleHasOneBracket(tag, m);
    }
  }

  lemma NeedleHasOneBracket(tag: string, m: nat)
    requires RawText(tag) && 0 < m < |Closer(tag)|
    ensures Lower(Closer(tag))[m] != '<'
  {
    hide Lower, RawText, Closer;
    RawTagFacts(tag);
    assert m >= 2 ==> Closer(tag)[m] == LowerChar(tag[m - 2]);
  }

  lemma AfterRawTag(b: Bytes, s: Scan, tag: string, end: nat, at: nat)
    requires RawText(tag) && s.index + 2 <= end <= |b| && Find(b, end, Closer(tag), true) == Some(at)
    ensures AfterNamed(b, s, tag, end, true) == Some(s.(index := at))
  {
    RawTagFacts(tag);
    hide RawText, Closer, IsVoid, Opened, Find;
  }

  /** From its opening tag the scan goes straight to the closing tag of a script or style. */
  lemma ScanReachesCloser(b: Bytes, s: Scan, tag: string, attrs: seq<Attr>, text: Bytes)
    requires RawText(tag) && PlainAttrs(attrs) && NoCloser(text, tag) && Here(b, s.index, Utf8(OpenTag(tag, attrs)))
    requires var end := s.index + |Utf8(OpenTag(tag, attrs))|;
             Here(b, end, text) && Here(b, end + |text|, Utf8(CloseTag(tag)))
    ensures var at := s.index + |Utf8(OpenTag(tag, attrs))| + |text|;
            at <= |b| && ScanFrom(b, s) == ScanFrom(b, s.(index := at))
  {
    hide Here, Utf8, OpenTag, CloseTag, TagEnd, NameEnd, AfterNamed, ScanFrom, Find, IsNameByte, NoCloser, RawText,
         IsName, PlainAttrs, Closer, OccursAt, Lower;
    var end := s.index + |Utf8(OpenTag(tag, attrs))|;
    RawTagFacts(tag);
    OpenTagParts(b, s.index, tag, attrs);
    CloserHere(b, end + |text|, tag);
    FindsCloser(b, end, text, tag);
    AfterRawTag(b, s, tag, end, end + |text|);
    ScanStep(b, s);
    assert Advance(b, s) == AfterTag(b, s);
  }

  lemma ScanPassesRaw(b: Bytes, s: Scan, tag: string, attrs: seq<Attr>, text: Bytes)
    requires RawText(tag) && PlainAttrs(attrs) && NoCloser(text, tag) && Here(b, s.index, Utf8(OpenTag(tag, attrs)))
    requires var end := s.index + |Utf8(OpenTag(tag, attrs))|;
             Here(b, end, text) && Here(b, end + |text|, Utf8(CloseTag(tag)))
    ensures var past := s.index + |Utf8(OpenTag(tag, attrs))| + |text| + |Utf8(CloseTag(tag))|;
            past <= |b| && ScanFrom(b, s) == ScanFrom(b, Scan(past, Max(s.depth - 1, 0), s.deepest, None))
  {
    hide Here, Utf8, OpenTag, CloseTag, ScanFrom, NoCloser, RawText, IsName, PlainAttrs, Closer;
    RawTagFacts(tag);
    ScanReachesCloser(b, s, tag, attrs, text);
    ScanPassesClose(b, s.(index := s.index + |Utf8(OpenTag(tag, attrs))| + |text|), tag);
  }

  /** The three parts of a printed script or style. */
  lemma RawParts(b: Bytes, i: nat, tag: string, attrs: seq<Attr>, text: string)
    requires Here(b, i, Utf8(OpenTag(tag, attrs) + text + CloseTag(tag)))
    ensures |Utf8(OpenTag(tag, attrs) + text + CloseTag(tag))|
        == |Utf8(OpenTag(tag, attrs))| + |Utf8(text)| + |Utf8(CloseTag(tag))|
    ensures Here(b, i, Utf8(OpenTag(tag, attrs)))
    ensures var end := i + |Utf8(OpenTag(tag, attrs))|;
            Here(b, end, Utf8(text)) && Here(b, end + |Utf8(text)|, Utf8(CloseTag(tag)))
  {
    hide Here, Utf8, OpenTag, CloseTag;
    Utf8Concat(OpenTag(tag, attrs) + text, CloseTag(tag));
    Utf8Concat(OpenTag(tag, attrs), text);
    HereSplits(b, i, Utf8(OpenTag(tag, attrs)) + Utf8(text), Utf8(CloseTag(tag)));
    HereSplits(b, i, Utf8(OpenTag(tag, attrs)), Utf8(text));
  }

  lemma NotePasses(b: Bytes, s: Scan, end: nat)
    requires s.index < end <= |b| && Advance(b, s) == Some(s.(index := end))
    ensures ScanFrom(b, s) == ScanFrom(b, s.(index := end))
  {
    hide Advance, ScanFrom;
    ScanStep(b, s);
  }

  /** The end of a comment is found behind its text, as no part of the text and no overlap looks like it. */
  lemma FindsCommentEnd(b: Bytes, from: nat, text: Bytes)
    requires Here(b, from, text) && Here(b, from + |text|, "-->") && Nowhere(text, "-->")
    ensures Find(b, from, "-->", false) == Some(from + |text|)
  {
    hide Find;
    var at := from + |text|;
    forall i | from <= i < at
      ensures !OccursAt(b, i, "-->", false)
    {
      if i + 3 <= at {
        SliceOfSlice(b, from, at, i, 3);
        assert !OccursAt(text, i - from, "-->", false);
      } else {
        ByteAt(b, at, "-->", i + 2 - at);
        assert b[i..i + 3][2] == b[i + 2] == '-';
      }
    }
    FirstIsFound(b, from, at, "-->", false);
  }

  lemma FindsBracket(b: Bytes, from: nat, text: Bytes)
    requires Here(b, from, text) && Here(b, from + |text|, ">") && '>' !in text
    ensures Find(b, from, ">", false) == Some(from + |text|)
  {
    hide Find;
    var at := from + |text|;
    ByteAt(b, at, ">", 0);
    forall i | from <= i < at
      ensures !OccursAt(b, i, ">", false)
    {
      ByteAt(b, from, text, i - from);
      assert b[i..i + 1][0] == b[i];
    }
    FirstIsFound(b, from, at, ">", false);
  }

  lemma ScanPassesComment(b: Bytes, s: Scan, text: Bytes)
    requires Here(b, s.index, "<!--" + text + "-->") && Nowhere(text, "-->")
    ensures s.index + |text| + 7 <= |b| && ScanFrom(b, s) == ScanFrom(b, s.(index := s.index + |text| + 7))
  {
    hide Find, ScanFrom, Nowhere, AfterTag, TagEnd;
    var i := s.index;
    HereSplits(b, i, "<!--" + text, "-->");
    HereSplits(b, i, "<!--", text);
    ByteAt(b, i, "<!--", 0);
    ByteAt(b, i, "<!--", 1);
    ByteAt(b, i, "<!--", 2);
    ByteAt(b, i, "<!--", 3);
    FindsCommentEnd(b, i + 4, text);
    hide Here;
    NotePasses(b, s, i + |text| + 7);
  }

  lemma ScanPassesBracketed(b: Bytes, s: Scan, open: string, text: Bytes)
    requires open in {"<!", "<?"} && Here(b, s.index, open + text + ">") && '>' !in text
    requires !(open == "<!" && "--" <= text)
    ensures s.index + |text| + 3 <= |b| && ScanFrom(b, s) == ScanFrom(b, s.(index := s.index + |text| + 3))
  {
    hide Find, ScanFrom, AfterTag, TagEnd;
    var i := s.index;
    HereSplits(b, i, open + text, ">");
    HereSplits(b, i, open, text);
    ByteAt(b, i, open, 0);
    ByteAt(b, i, open, 1);
    FindsBracket(b, i + 2, text);
    NotADash(b, i + 2, text);
    hide Here;
    NotePasses(b, s, i + |text| + 3);
  }

  lemma NotADash(b: Bytes, i: nat, text: Bytes)
    requires Here(b, i, text) && Here(b, i + |text|, ">")
    ensures !("--" <= text) ==> !(i + 1 < |b| && b[i] == '-' && b[i + 1] == '-')
  {
    ByteAt(b, i + |text|, ">", 0);
    if |text| >= 2 {
      ByteAt(b, i, text, 0);
      ByteAt(b, i, text, 1);
      assert text[..2] == [text[0], text[1]];
    } else if |text| == 1 {
      ByteAt(b, i, text, 0);
    }
  }

  lemma NoBracketInBytes(text: string)
    requires '>' !in text
    ensures '>' !in Utf8(text)
  {
    hide Utf8;
    if '>' in Utf8(text) {
      AsciiByteIsAChar(text, '>');
    }
  }

  lemma {:induction false} NoDashesInBytes(text: string)
    requires !("--" <= text)
    ensures !("--" <= Utf8(text))
  {
    if |text| >= 1 && text[0] == '-' {
      assert text == "-" + text[1..];
      Utf8Concat("-", text[1..]);
      AsciiIsItself("-");
      if |text| >= 2 {
        assert text[1] != '-';
        FirstByte(text[1..]);
      }
    } else if text != [] {
      FirstByte(text);
    }
  }

  lemma FirstByte(text: string)
    requires text != []
    ensures Utf8(text) != [] && (Utf8(text)[0] as int < 0x80 || text[0] as int < 0x80 ==> Utf8(text)[0] == text[0])
  {
    hide Utf8, Utf8Char;
    assert text == [text[0]] + text[1..];
    Utf8Concat([text[0]], text[1..]);
    OneChar(text[0]);
  }

  lemma OneChar(c: char)
    ensures Utf8([c]) == Utf8Char(c) && |Utf8Char(c)| > 0
  {
    assert [c][..0] == [];
    assert Utf8([c][..0]) == [];
  }

  lemma ScanPassesNote(b: Bytes, s: Scan, kind: Note, text: string)
    requires PlainNote(kind, text) && Here(b, s.index, Utf8(PrintNote(kind, text)))
    ensures s.index + |Utf8(PrintNote(kind, text))| <= |b|
    ensures ScanFrom(b, s) == ScanFrom(b, s.(index := s.index + |Utf8(PrintNote(kind, text))|))
  {
    hide Utf8, ScanFrom, Here, Nowhere;
    var open := match kind case Comment => "<!--" case Doctype => "<!" case Instruction => "<?";
    var close := if kind.Comment? then "-->" else ">";
    Utf8Concat(open + text, close);
    Utf8Concat(open, text);
    AsciiIsItself(open);
    AsciiIsItself(close);
    if kind.Comment? {
      ScanPassesComment(b, s, Utf8(text));
    } else {
      NoBracketInBytes(text);
      if kind.Doctype? { NoDashesInBytes(text); }
      ScanPassesBracketed(b, s, open, Utf8(text));
    }
  }

  lemma ScanPassesStray(b: Bytes, s: Scan, next: char)
    requires PlainToken(Stray(next)) && Here(b, s.index, Utf8(['<', next]))
    ensures s.index + |Utf8(['<', next])| <= |b|
    ensures ScanFrom(b, s) == ScanFrom(b, s.(index := s.index + |Utf8(['<', next])|))
  {
    hide Utf8, ScanFrom, AfterTag, Find, TagEnd, Utf8Char;
    var tail := Utf8([next]);
    assert ['<', next] == "<" + [next];
    Utf8Concat("<", [next]);
    AsciiIsItself("<");
    HereSplits(b, s.index, "<", tail);
    ByteAt(b, s.index, "<", 0);
    FirstByte([next]);
    ByteAt(b, s.index + 1, tail, 0);
    NotePasses(b, s, s.index + 1);
    if '<' in tail {
      AsciiByteIsAChar([next], '<');
    }
    ScanPassesBytes(b, s.(index := s.index + 1), tail);
  }

  lemma PrintedSlashed(tag: string, attrs: seq<Attr>)
    requires IsName(tag)
    ensures Utf8(PrintToken(Slashed(tag, attrs))) == ("<" + tag) + (Utf8(PrintAttrs(attrs)) + "/>")
  {
    hide Utf8, PrintAttrs;
    NameIsAscii(tag);
    var inner := PrintAttrs(attrs);
    Utf8Concat("<" + tag + inner, "/>");
    Utf8Concat("<" + tag, inner);
    AsciiIsItself("<" + tag);
    AsciiIsItself("/>");
  }

  lemma ScanPassesSlashed(b: Bytes, s: Scan, tag: string, attrs: seq<Attr>)
    requires PlainToken(Slashed(tag, attrs)) && Here(b, s.index, Utf8(PrintToken(Slashed(tag, attrs))))
    ensures s.index + |Utf8(PrintToken(Slashed(tag, attrs)))| <= |b|
    ensures ScanFrom(b, s) == ScanFrom(b, s.(index := s.index + |Utf8(PrintToken(Slashed(tag, attrs)))|))
  {
    hide Here, Utf8, PrintAttrs, TagEnd, NameEnd, ScanFrom, PlainTag, IsName, Find, IsNameByte, RawText, Closer,
         IsVoid, Opened;
    hide PlainAttrs;
    var a, nameEnd := Utf8(PrintAttrs(attrs)), s.index + 1 + |tag|;
    PlainTagIsName(tag);
    PrintedSlashed(tag, attrs);
    HereSplits(b, s.index, "<" + tag, a + "/>");
    NameParts(b, s.index, tag);
    HereSplits(b, nameEnd, a, "/>");
    SlashEnds(b, nameEnd, attrs);
    NameEndsAt(b, s.index + 1, nameEnd);
    NotePasses(b, s, nameEnd + |a| + 2);
  }

  lemma SlashEnds(b: Bytes, i: nat, attrs: seq<Attr>)
    requires PlainAttrs(attrs)
    requires Here(b, i, Utf8(PrintAttrs(attrs))) && Here(b, i + |Utf8(PrintAttrs(attrs))|, "/>")
    ensures var end := i + |Utf8(PrintAttrs(attrs))| + 2;
            i + 1 < end <= |b| && !IsNameByte(b[i]) && TagEnd(b, i) == (end, true) && b[end - 2] == '/'
  {
    hide Utf8, PrintAttrs, TagEnd, IsName;
    var a := Utf8(PrintAttrs(attrs));
    AttrsFrame(attrs);
    ByteAt(b, i + |a|, "/>", 0);
    ByteAt(b, i + |a|, "/>", 1);
    if a != [] {
      ByteAt(b, i, a, 0);
    }
    TagEndPassesAttrs(b, i, attrs);
    TagEndStep(b, i + |a|);
  }

  lemma CloserHere(b: Bytes, at: nat, tag: string)
    requires IsName(tag) && Here(b, at, Utf8(CloseTag(tag)))
    ensures Here(b, at, "</" + tag)
  {
    hide Utf8;
    AsciiIsItself(CloseTag(tag));
    HereSplits(b, at, "</" + tag, ">");
  }

  lemma TextHasNoTag(text: string)
    ensures '<' !in Utf8(Escaped(text, false))
  {
    hide Utf8, Escaped;
    if '<' in Utf8(Escaped(text, false)) {
      AsciiByteIsAChar(Escaped(text, false), '<');
      EscapedChars(text, false, '<');
    }
  }

  lemma ScanPassesBytes(b: Bytes, s: Scan, part: Bytes)
    requires Here(b, s.index, part) && '<' !in part
    ensures s.index + |part| <= |b| && ScanFrom(b, s) == ScanFrom(b, s.(index := s.index + |part|))
  {
    hide ScanFrom;
    forall p | s.index <= p < s.index + |part|
      ensures b[p] != '<'
    {
      ByteAt(b, s.index, part, p - s.index);
    }
    ScanPassesText(b, s, s.index + |part|);
  }

  lemma ScanPassesChars(b: Bytes, s: Scan, text: string)
    requires Here(b, s.index, Utf8(Escaped(text, false)))
    ensures s.index + |Utf8(Escaped(text, false))| <= |b|
    ensures ScanFrom(b, s) == ScanFrom(b, s.(index := s.index + |Utf8(Escaped(text, false))|))
  {
    hide Utf8, Escaped, ScanFrom, Here;
    TextHasNoTag(text);
    ScanPassesBytes(b, s, Utf8(Escaped(text, false)));
  }

  function ScanAt(i: nat, k: Track): Scan { Scan(i, k.depth, k.deepest, k.last) }

  lemma ScanPassesToken(b: Bytes, i: nat, k: Track, t: Token)
    requires PlainToken(t) && Here(b, i, Utf8(PrintToken(t)))
    ensures i + |Utf8(PrintToken(t))| <= |b|
    ensures ScanFrom(b, ScanAt(i, k)) == ScanFrom(b, ScanAt(i + |Utf8(PrintToken(t))|, Follow(k, t)))
  {
    hide Here, Utf8, Escaped, OpenTag, CloseTag, ScanFrom, IsVoid, IsAutoClosing, PlainTag, RawText;
    match t
    case Chars(text) =>
      ScanPassesChars(b, ScanAt(i, k), text);
    case Open(tag, attrs) =>
      ScanPassesOpen(b, ScanAt(i, k), tag, attrs);
      PlainTagIsName(tag);
    case Close(tag) =>
      PlainTagIsName(tag);
      ScanPassesClose(b, ScanAt(i, k), tag);
    case Raw(tag, attrs, text) =>
      RawParts(b, i, tag, attrs, text);
      ScanPassesRaw(b, ScanAt(i, k), tag, attrs, Utf8(text));
    case Aside(kind, text) =>
      ScanPassesNote(b, ScanAt(i, k), kind, text);
    case Slashed(tag, attrs) =>
      ScanPassesSlashed(b, ScanAt(i, k), tag, attrs);
    case Stray(next) =>
      ScanPassesStray(b, ScanAt(i, k), next);
  }

  lemma {:induction false} ScanPassesTokens(b: Bytes, i: nat, ts: seq<Token>)
    requires PlainTokens(ts) && Here(b, i, Utf8(PrintTokens(ts)))
    ensures i + |Utf8(PrintTokens(ts))| <= |b|
    ensures ScanFrom(b, ScanAt(i, ORIGIN)) == ScanFrom(b, ScanAt(i + |Utf8(PrintTokens(ts))|, FollowAll(ORIGIN, ts)))
  {
    hide ScanFrom, Follow, PrintToken, PlainToken, Utf8Char;
    if ts != [] {
      var front, last := ts[..|ts| - 1], ts[|ts| - 1];
      Utf8Concat(PrintTokens(front), PrintToken(last));
      HereSplits(b, i, Utf8(PrintTokens(front)), Utf8(PrintToken(last)));
      ScanPassesTokens(b, i, front);
      ScanPassesToken(b, i + |Utf8(PrintTokens(front))|, FollowAll(ORIGIN, front), last);
    }
  }

  // ----- Main results

  /**
   On the HTML of any forest whose tokens can be told apart again, the scanner's greatest depth is at most the
   forest's nesting, and exactly that if no tag repeats and no script or style stands inside an element.
   */
  lemma ScannerFollowsNesting(ns: seq<Node>)
    requires PlainTokens(TokensAll(ns))
    ensures Deepest(Utf8(HtmlOf(ns))) <= NestingOf(ns)
    ensures Exact(ns) ==> Deepest(Utf8(HtmlOf(ns))) == NestingOf(ns)
  {
    hide TokensAll, PrintTokens, NestingOf, Utf8, FirstOpenOf, DistinctAll, HasRawAll, RawInsideAll, ScanFrom,
         FollowAll, PlainTokens;
    var ts, b := TokensAll(ns), Utf8(HtmlOf(ns));
    ScanPassesTokens(b, 0, ts);
    ScanEnds(b, ScanAt(|b|, FollowAll(ORIGIN, ts)));
    assert ts[..|ts|] == ts;
    DepthIsAtMostNesting(ns, |ts|);
    ForestReturns(ORIGIN, ns);
  }

  /** After any prefix of the tokens the scan stands at their end with the depth they give. */
  lemma ScannerStandsBetweenTokens(ns: seq<Node>, i: nat)
    requires PlainTokens(TokensAll(ns)) && i <= |TokensAll(ns)|
    ensures var b, ts := Utf8(HtmlOf(ns)), TokensAll(ns)[..i];
            && |Utf8(PrintTokens(ts))| <= |b|
            && ScanFrom(b, START) == ScanFrom(b, ScanAt(|Utf8(PrintTokens(ts))|, FollowAll(ORIGIN, ts)))
  {
    hide TokensAll, PrintTokens, Utf8, ScanFrom, FollowAll, PlainToken;
    var all := TokensAll(ns);
    var ts, rest, b := all[..i], all[i..], Utf8(HtmlOf(ns));
    assert all == ts + rest;
    PrintTokensConcat(ts, rest);
    Utf8Concat(PrintTokens(ts), PrintTokens(rest));
    HereSplits(b, 0, Utf8(PrintTokens(ts)), Utf8(PrintTokens(rest)));
    ScanPassesTokens(b, 0, ts);
  }

  /** What the sanitizer prints is never rejected as too deep when it is processed again. */
  lemma SanitizedIsNeverRejected(o: Options, root: Node)
    ensures Deepest(Utf8(PrintAll(Sanitized(o, root, 0)))) <= 513
    ensures Deepest(Utf8(PrintAll(Sanitized(o, root, 0)))) <= MAX_PREPARSE_DEPTH
  {
    hide SafeAll, Sanitized, PrintAll, HeightAll, NestingOf, HasRawAll, TokensAll, HtmlOf, Utf8, Deepest, Exact;
    var ns := Sanitized(o, root, 0);
    SanitizedIsSafe(o, root, 0);
    DepthIsBounded(o, root, 0);
    SafeForestIsEscapable(o, ns);
    SafeTokensOfAllArePlain(o, ns);
    TokensPrintTheForest(ns);
    NestingOfIsHeight(ns);
    ScannerFollowsNesting(ns);
  }

  // ----- How far the scanner can fall short

  /** n elements, one inside the other, each of which begins with an empty script. */
  function Shaft(n: nat): seq<Node> {
    if n == 0 then [] else [Element("div", [], [Element("script", [], [])] + Shaft(n - 1))]
  }

  function ShaftTokens(n: nat): seq<Token> {
    if n == 0 then [] else [Open("div", [])] + ([Raw("script", [], [])] + ShaftTokens(n - 1)) + [Close("div")]
  }

  lemma ForestOfOne(n: Node)
    ensures TokensAll([n]) == Tokens(n) && NestingOf([n]) == Nest(n)
  {
    hide Tokens, Nest;
    assert [n][..0] == [];
    assert TokensAll([n][..0]) == [] && NestingOf([n][..0]) == 0;
  }

  lemma {:induction false} ForestOfBoth(a: seq<Node>, b: seq<Node>)
    ensures TokensAll(a + b) == TokensAll(a) + TokensAll(b) && NestingOf(a + b) == Max(NestingOf(a), NestingOf(b))
  {
    hide Tokens, Nest;
    if b == [] {
      assert a + b == a;
    } else {
      assert (a + b)[..|a + b| - 1] == a + b[..|b| - 1];
      ForestOfBoth(a, b[..|b| - 1]);
    }
  }

  lemma DivIsPlain()
    ensures PlainTag("div") && !IsVoid("div") && !RawText("div") && !IsAutoClosing("div") && RawText("script")
    ensures forall last :: !Repeats(last, "div")
  {
  }

  lemma {:induction false} ShaftIs(n: nat)
    ensures TokensAll(Shaft(n)) == ShaftTokens(n) && NestingOf(Shaft(n)) == n && PlainTokens(ShaftTokens(n))
  {
    hide TokensAll, NestingOf, IsName, IsVoid, RawText, PlainTag;
    if n == 0 {
      EmptyForest();
    } else {
      var script := Element("script", [], []);
      DivIsPlain();
      ShaftIs(n - 1);
      EmptyForest();
      ForestOfOne(script);
      ForestOfBoth([script], Shaft(n - 1));
      ForestOfOne(Element("div", [], [script] + Shaft(n - 1)));
      EmptyScriptIsPlain();
    }
  }

  lemma EmptyForest()
    ensures TokensAll([]) == [] && NestingOf([]) == 0 && TextOfAll([]) == []
  {
  }

  lemma EmptyScriptIsPlain()
    ensures PlainToken(Raw("script", [], []))
  {
    assert Utf8([]) == [];
  }

  /** The scanner goes up and down between zero and one. */
  lemma {:induction false} ShaftScans(k: Track, n: nat)
    requires k.depth == 0
    ensures var t := FollowAll(k, ShaftTokens(n)); t.depth == 0 && t.deepest == Max(k.deepest, Min(n, 1))
    decreases n
  {
    hide IsVoid, Repeats;
    if n != 0 {
      var open, raw, close := Open("div", []), Raw("script", [], []), Close("div");
      DivIsPlain();
      FollowOne(k, open);
      var k1 := Follow(k, open);
      FollowOne(k1, raw);
      var k2 := Follow(k1, raw);
      FollowConcat(k1, [raw], ShaftTokens(n - 1));
      ShaftScans(k2, n - 1);
      FollowConcat(k, [open], [raw] + ShaftTokens(n - 1));
      FollowConcat(k, [open] + ([raw] + ShaftTokens(n - 1)), [close]);
      FollowOne(FollowAll(k2, ShaftTokens(n - 1)), close);
    }
  }

  /** For every n there is an HTML text with n elements open at once that scans to a depth of at most one. */
  lemma RawHtmlNestsDeeperThanScanned(n: nat)
    ensures NestingOf(Shaft(n)) == n && PlainTokens(TokensAll(Shaft(n)))
    ensures Deepest(Utf8(HtmlOf(Shaft(n)))) == Min(n, 1)
  {
    hide TokensAll, PrintTokens, NestingOf, Utf8, ScanFrom, FollowAll, PlainTokens, Shaft, ShaftTokens;
    var ts, b := ShaftTokens(n), Utf8(HtmlOf(Shaft(n)));
    ShaftIs(n);
    ScanPassesTokens(b, 0, ts);
    ScanEnds(b, ScanAt(|b|, FollowAll(ORIGIN, ts)));
    ShaftScans(ORIGIN, n);
  }
}
