/** What the sanitizer keeps and what it counts: the markup of a result in order, and a balance of its metrics. */
module SanitizedMarkup {
  import opened Common
  import opened Sanitizer
  import opened SanitizerLaws

  // ----- Which attributes are kept

  /**
   The URL that a link or image address stands for: none for an empty one, a fragment, or a scheme other than http(s).
   */
  function LinkTarget(o: Options, value: string): Option<string> {
    var text := Trim(value);
    if text == [] || text[0] == '#' || o.resolve(text).None? then None
    else
      var url := o.resolve(text).value;
      if url.scheme == "https" || url.scheme == "http" then Some(url.text) else None
  }

  /** An address survives with its target; a caption or date survives as it is; nothing else does. */
  lemma AttrSurvivesExactlyWhen(o: Options, tag: string, attr: Attr, kept: Attr)
    ensures SanitizedAttr(o, tag, attr) == Some(kept) <==>
            if (tag, attr.0) == ("a", "href") || (tag, attr.0) == ("img", "src")
            then kept.0 == attr.0 && LinkTarget(o, attr.1) == Some(kept.1)
            else kept == attr && (tag, attr.0) in {("img", "alt"), ("img", "title"), ("time", "datetime")}
  {
    hide Trim;
  }

  function Survivors(o: Options, tag: string, attrs: seq<Attr>): set<nat> {
    set i: nat | i < |attrs| && SanitizedAttr(o, tag, attrs[i]).Some?
  }

  /** The kept attributes are the surviving ones, each once and in order. */
  lemma {:induction false} AttrsStayInOrder(o: Options, tag: string, attrs: seq<Attr>, i: nat)
    ensures |KeptAttrs(o, tag, attrs)| == |Survivors(o, tag, attrs)|
    ensures i in Survivors(o, tag, attrs) ==>
              var at := |Survivors(o, tag, attrs[..i])|;
              at < |KeptAttrs(o, tag, attrs)| && Some(KeptAttrs(o, tag, attrs)[at]) == SanitizedAttr(o, tag, attrs[i])
  {
    hide SanitizedAttr;
    if attrs == [] {
      assert Survivors(o, tag, attrs) == {};
    } else {
      var front, n := attrs[..|attrs| - 1], |attrs| - 1;
      AttrsStayInOrder(o, tag, front, i);
      assert Survivors(o, tag, attrs) ==
             Survivors(o, tag, front) + if SanitizedAttr(o, tag, attrs[n]).Some? then {n as nat} else {};
      if i < n {
        assert front[..i] == attrs[..i] && (i in Survivors(o, tag, attrs) ==> i in Survivors(o, tag, front));
      }
    }
  }

  // ----- The markup of a result

  datatype Piece = Start(tag: string, attrs: seq<Attr>) | Word(text: string) | End(tag: string)

  function Pieces(n: Node): seq<Piece>
    decreases n
  {
    match n
    case Text(text) => [Word(text)]
    case Other(_, _) => []
    case Element(tag, attrs, children) => [Start(tag, attrs)] + PiecesOfAll(children) + [End(tag)]
  }

  function PiecesOfAll(ns: seq<Node>): seq<Piece>
    decreases ns
  {
    if ns == [] then [] else PiecesOfAll(ns[..|ns| - 1]) + Pieces(ns[|ns| - 1])
  }

  /**
   The text and the article elements outside hidden subtrees, in order, each element with its surviving attributes.
   */
  function Wanted(o: Options, n: Node, depth: nat): seq<Piece>
    decreases n
  {
    match n
    case Text(text) => [Word(text)]
    case Other(_, _) => []
    case Element(tag, attrs, children) =>
      if Hidden(o, tag, depth) then []
      else if ArticleTag(tag) then
        [Start(tag, KeptAttrs(o, tag, attrs))] + WantedOfAll(o, children, depth + 1) + [End(tag)]
      else WantedOfAll(o, children, depth + 1)
  }

  function WantedOfAll(o: Options, ns: seq<Node>, depth: nat): seq<Piece>
    decreases ns
  {
    if ns == [] then [] else WantedOfAll(o, ns[..|ns| - 1], depth) + Wanted(o, ns[|ns| - 1], depth)
  }

  lemma {:induction false} PiecesAppend(a: seq<Node>, b: seq<Node>)
    ensures PiecesOfAll(a + b) == PiecesOfAll(a) + PiecesOfAll(b)
  {
    hide Pieces;
    if b == [] {
      assert a + b == a;
    } else {
      assert (a + b)[..|a + b| - 1] == a + b[..|b| - 1];
      PiecesAppend(a, b[..|b| - 1]);
    }
  }

  lemma PiecesOfOne(n: Node)
    ensures PiecesOfAll([n]) == Pieces(n)
  {
    hide Pieces;
    assert PiecesOfAll([n][..0]) == [];
  }

  /** An element that is not hidden is kept exactly if it is an article element. */
  lemma FateByName(o: Options, tag: string, depth: nat)
    ensures FateOf(o, tag, depth).Drop? <==> Hidden(o, tag, depth)
    ensures FateOf(o, tag, depth).Keep? <==> !Hidden(o, tag, depth) && ArticleTag(tag)
    ensures FateOf(o, tag, depth) == Unwrap(false) <==> !Hidden(o, tag, depth) && tag in {"html", "head", "body"}
  {
    HiddenIsDropped(o, tag, depth);
    AllowedIsArticle(tag);
    assert Unwraps(tag) ==> !Allowed(tag);
  }

  /** Sanitizing keeps exactly the wanted markup: nothing is lost, reordered or moved into another element. */
  lemma {:induction false} MarkupIsPreserved(o: Options, n: Node, depth: nat)
    ensures PiecesOfAll(Sanitized(o, n, depth)) == Wanted(o, n, depth)
    decreases n
  {
    hide FateOf, Hidden, KeptAttrs, ArticleTag;
    if n.Element? {
      FateByName(o, n.tag, depth);
      MarkupOfAllIsPreserved(o, n.children, depth + 1);
      if FateOf(o, n.tag, depth).Keep? {
        PiecesOfOne(Element(n.tag, KeptAttrs(o, n.tag, n.attrs), SanitizedAll(o, n.children, depth + 1)));
      }
    } else if n.Text? {
      PiecesOfOne(n);
    }
  }

  lemma {:induction false} MarkupOfAllIsPreserved(o: Options, ns: seq<Node>, depth: nat)
    ensures PiecesOfAll(SanitizedAll(o, ns, depth)) == WantedOfAll(o, ns, depth)
    decreases ns
  {
    hide Pieces, Sanitized, Wanted;
    if ns != [] {
      MarkupOfAllIsPreserved(o, ns[..|ns| - 1], depth);
      MarkupIsPreserved(o, ns[|ns| - 1], depth);
      PiecesAppend(SanitizedAll(o, ns[..|ns| - 1], depth), Sanitized(o, ns[|ns| - 1], depth));
    }
  }

  // ----- The metrics balance

  /** Elements and attributes of a result, and its link and image addresses. */
  function Content(n: Node): Metrics
    decreases n
  {
    if n.Element?
    then Plus(Metrics(1, |n.attrs|, if n.tag == "a" then Named(n.attrs, "href") else 0,
                      if n.tag == "img" then Named(n.attrs, "src") else 0), ContentOfAll(n.children))
    else ZERO
  }

  function ContentOfAll(ns: seq<Node>): Metrics
    decreases ns
  {
    if ns == [] then ZERO else Plus(ContentOfAll(ns[..|ns| - 1]), Content(ns[|ns| - 1]))
  }

  function Named(attrs: seq<Attr>, name: string): nat {
    if attrs == [] then 0 else Named(attrs[..|attrs| - 1], name) + if attrs[|attrs| - 1].0 == name then 1 else 0
  }

  /** What the sanitizer looks at: elements outside hidden ones, and the attributes of those that it keeps. */
  datatype Seen = Seen(elements: nat, frames: nat, attributes: nat)

  function Both(a: Seen, b: Seen): Seen {
    Seen(a.elements + b.elements, a.frames + b.frames, a.attributes + b.attributes)
  }

  function Inspected(o: Options, n: Node, depth: nat): Seen
    decreases n
  {
    if !n.Element? then Seen(0, 0, 0)
    else if Hidden(o, n.tag, depth) then Seen(1, 0, 0)
    else Both(Seen(1, if n.tag in {"html", "head", "body"} then 1 else 0, if ArticleTag(n.tag) then |n.attrs| else 0),
              InspectedAll(o, n.children, depth + 1))
  }

  function InspectedAll(o: Options, ns: seq<Node>, depth: nat): Seen
    decreases ns
  {
    if ns == [] then Seen(0, 0, 0) else Both(InspectedAll(o, ns[..|ns| - 1], depth), Inspected(o, ns[|ns| - 1], depth))
  }

  /** Every element seen is in the result, stripped, or a frame; every attribute seen is in the result or stripped. */
  predicate Balances(seen: Seen, result: Metrics, m: Metrics) {
    && seen.elements == result.elements + m.elements + seen.frames
    && seen.attributes == result.attributes + m.attributes
    && m.links == result.links && m.images == result.images
  }

  lemma {:induction false} ContentAppend(a: seq<Node>, b: seq<Node>)
    ensures ContentOfAll(a + b) == Plus(ContentOfAll(a), ContentOfAll(b))
  {
    hide Content, Plus;
    if b == [] {
      assert a + b == a;
      PlusFacts(ContentOfAll(a), ZERO, ZERO);
    } else {
      assert (a + b)[..|a + b| - 1] == a + b[..|b| - 1];
      ContentAppend(a, b[..|b| - 1]);
      PlusFacts(ContentOfAll(a), ContentOfAll(b[..|b| - 1]), Content(b[|b| - 1]));
    }
  }

  lemma ContentOfOne(n: Node)
    ensures ContentOfAll([n]) == Content(n)
  {
    hide Content, Plus;
    assert ContentOfAll([n][..0]) == ZERO;
    PlusFacts(Content(n), ZERO, ZERO);
  }

  lemma {:induction false} AttrsBalance(o: Options, tag: string, attrs: seq<Attr>)
    ensures var kept, m := KeptAttrs(o, tag, attrs), AttrsMetrics(o, tag, attrs);
            && |attrs| == |kept| + m.attributes && m.elements == 0
            && m.links == (if tag == "a" then Named(kept, "href") else 0)
            && m.images == (if tag == "img" then Named(kept, "src") else 0)
  {
    hide SanitizedAttr;
    if attrs != [] {
      var front, last := attrs[..|attrs| - 1], attrs[|attrs| - 1];
      AttrsBalance(o, tag, front);
      var kept := KeptAttrs(o, tag, attrs);
      if SanitizedAttr(o, tag, last).Some? {
        assert kept[..|kept| - 1] == KeptAttrs(o, tag, front);
      } else {
        assert kept == KeptAttrs(o, tag, front);
      }
    }
  }

  lemma BalancesAdd(seen: Seen, result: Metrics, m: Metrics, seen': Seen, result': Metrics, m': Metrics)
    requires Balances(seen, result, m) && Balances(seen', result', m')
    ensures Balances(Both(seen, seen'), Plus(result, result'), Plus(m, m'))
  {
  }

  lemma StrippedBalances(stripped: nat, frames: nat)
    ensures Balances(Seen(stripped + frames, frames, 0), ZERO, Metrics(stripped, 0, 0, 0))
  {
  }

  lemma KeptBalances(o: Options, tag: string, attrs: seq<Attr>)
    ensures var kept := KeptAttrs(o, tag, attrs);
            Balances(Seen(1, 0, |attrs|),
                     Metrics(1, |kept|, if tag == "a" then Named(kept, "href") else 0,
                             if tag == "img" then Named(kept, "src") else 0),
                     AttrsMetrics(o, tag, attrs))
  {
    AttrsBalance(o, tag, attrs);
  }

  /** The metrics are the balance between what was seen and what is in the result. */
  lemma {:induction false} MetricsBalance(o: Options, n: Node, depth: nat)
    ensures Balances(Inspected(o, n, depth), ContentOfAll(Sanitized(o, n, depth)), MetricsOf(o, n, depth))
    decreases n
  {
    hide FateOf, Hidden, KeptAttrs, ArticleTag, AttrsMetrics, Named, Plus, Both, Balances;
    StrippedBalances(0, 0);
    StrippedBalances(1, 0);
    StrippedBalances(0, 1);
    if n.Element? {
      FateByName(o, n.tag, depth);
      FrameIsNoArticle(n.tag);
      MetricsBalanceForAll(o, n.children, depth + 1);
      var inside, kept := SanitizedAll(o, n.children, depth + 1), KeptAttrs(o, n.tag, n.attrs);
      var seen, m := InspectedAll(o, n.children, depth + 1), MetricsOfAll(o, n.children, depth + 1);
      match FateOf(o, n.tag, depth)
      case Keep =>
        KeptBalances(o, n.tag, n.attrs);
        ContentOfOne(Element(n.tag, kept, inside));
        BalancesAdd(Seen(1, 0, |n.attrs|),
                    Metrics(1, |kept|, if n.tag == "a" then Named(kept, "href") else 0,
                            if n.tag == "img" then Named(kept, "src") else 0),
                    AttrsMetrics(o, n.tag, n.attrs), seen, ContentOfAll(inside), m);
      case Unwrap(counted) =>
        PlusFacts(ContentOfAll(inside), ZERO, ZERO);
        if counted {
          BalancesAdd(Seen(1, 0, 0), ZERO, Metrics(1, 0, 0, 0), seen, ContentOfAll(inside), m);
        } else {
          BalancesAdd(Seen(1, 1, 0), ZERO, ZERO, seen, ContentOfAll(inside), m);
        }
      case Drop =>
    } else if n.Text? {
      ContentOfOne(n);
    }
  }

  lemma FrameIsNoArticle(tag: string)
    ensures tag in {"html", "head", "body"} ==> !ArticleTag(tag)
  {
  }

  lemma {:induction false} MetricsBalanceForAll(o: Options, ns: seq<Node>, depth: nat)
    ensures Balances(InspectedAll(o, ns, depth), ContentOfAll(SanitizedAll(o, ns, depth)), MetricsOfAll(o, ns, depth))
    decreases ns
  {
    hide Content, Sanitized, Inspected, MetricsOf, Plus, Both, Balances;
    StrippedBalances(0, 0);
    if ns != [] {
      var front, last := ns[..|ns| - 1], ns[|ns| - 1];
      MetricsBalanceForAll(o, front, depth);
      MetricsBalance(o, last, depth);
      ContentAppend(SanitizedAll(o, front, depth), Sanitized(o, last, depth));
      BalancesAdd(InspectedAll(o, front, depth), ContentOfAll(SanitizedAll(o, front, depth)),
                  MetricsOfAll(o, front, depth),
                  Inspected(o, last, depth), ContentOfAll(Sanitized(o, last, depth)), MetricsOf(o, last, depth));
    }
  }

  // ----- Escaping

  /** What a reader of HTML takes the text for: the four references stand for their characters. */
  function Decoded(s: string): string {
    if s == [] then []
    else if "&amp;" <= s then "&" + Decoded(s[5..])
    else if "&lt;" <= s then "<" + Decoded(s[4..])
    else if "&gt;" <= s then ">" + Decoded(s[4..])
    else if "&quot;" <= s then "\"" + Decoded(s[6..])
    else [s[0]] + Decoded(s[1..])
  }

  lemma EscapeDecodes(c: char, quoted: bool, rest: string)
    ensures Decoded(EscapeChar(c, quoted) + rest) == [c] + Decoded(rest)
  {
    var s := EscapeChar(c, quoted) + rest;
    assert "&amp;"[0] == "&lt;"[0] == "&gt;"[0] == "&quot;"[0] == '&';
    assert "&amp;"[1] == 'a' && "&lt;"[1] == 'l' && "&gt;"[1] == 'g' && "&quot;"[1] == 'q';
    assert s[|EscapeChar(c, quoted)|..] == rest;
    if c in {'&', '<', '>'} || (quoted && c == '"') {
      assert s[1] == EscapeChar(c, quoted)[1];
      assert EscapeChar(c, quoted) <= s;
    } else {
      assert s[0] == c;
    }
  }

  lemma EscapeSplit(first: string, s: string, quoted: bool)
    requires |first| == 1
    ensures Escaped(first + s, quoted) == EscapeChar(first[0], quoted) + Escaped(s, quoted)
  {
    hide EscapeChar;
    if s == [] {
      assert first + s == first && first[..0] == [];
    } else {
      assert (first + s)[..|s|] == first + s[..|s| - 1];
      EscapeSplit(first, s[..|s| - 1], quoted);
    }
  }

  /**
   Escaped text reads as the text it was made of, and has no character that would end a text or an attribute value.
   */
  lemma {:induction false} EscapedReadsAsItWas(s: string, quoted: bool)
    ensures Decoded(Escaped(s, quoted)) == s
    ensures forall c :: c in Escaped(s, quoted) ==> c != '<' && c != '>' && (quoted ==> c != '"')
  {
    hide Decoded, EscapeChar;
    if s == [] {
      NothingDecoded();
    } else {
      assert s == [s[0]] + s[1..];
      EscapeSplit([s[0]], s[1..], quoted);
      EscapeDecodes(s[0], quoted, Escaped(s[1..], quoted));
      EscapedReadsAsItWas(s[1..], quoted);
      PlainChars(s[0], quoted);
    }
  }

  lemma NothingDecoded()
    ensures Decoded([]) == []
  {
  }

  lemma PlainChars(c: char, quoted: bool)
    ensures forall d :: d in EscapeChar(c, quoted) ==> d != '<' && d != '>' && (quoted ==> d != '"')
  {
    var e := EscapeChar(c, quoted);
    assert forall i :: 0 <= i < |e| ==> e[i] != '<' && e[i] != '>' && (quoted ==> e[i] != '"');
  }
}
