/** What sanitizing guarantees: only allowed markup, bounded depth, the visible text, and a fixed point. */
module SanitizerLaws {
  import opened Common
  import opened Sanitizer

  /** On a URL it has produced, `resolve` changes nothing, as URL normalization is idempotent. */
  ghost predicate UrlsAreStable(o: Options) {
    forall v: string ::
      o.resolve(v).Some? && (o.resolve(v).value.scheme == "http" || o.resolve(v).value.scheme == "https") ==>
        StableText(o, o.resolve(v).value.text)
  }

  predicate StableText(o: Options, text: string) { SanitizeUrl(o, text) == Some(text) }

  // ----- A sanitized node survives sanitizing unchanged

  predicate CleanAttrs(o: Options, tag: string, attrs: seq<Attr>) {
    forall i :: 0 <= i < |attrs| ==> SanitizedAttr(o, tag, attrs[i]) == Some(attrs[i])
  }

  predicate Clean(o: Options, n: Node, depth: nat)
    decreases n
  {
    match n
    case Text(_) => true
    case Other(_, _) => false
    case Element(tag, attrs, children) =>
      FateOf(o, tag, depth).Keep? && CleanAttrs(o, tag, attrs) && CleanAll(o, children, depth + 1)
  }

  predicate CleanAll(o: Options, ns: seq<Node>, depth: nat)
    decreases ns
  {
    ns != [] ==> CleanAll(o, ns[..|ns| - 1], depth) && Clean(o, ns[|ns| - 1], depth)
  }

  lemma {:induction false} CleanAppend(o: Options, a: seq<Node>, b: seq<Node>, depth: nat)
    ensures CleanAll(o, a + b, depth) <==> CleanAll(o, a, depth) && CleanAll(o, b, depth)
  {
    hide Clean;
    if b == [] {
      assert a + b == a;
    } else {
      assert (a + b)[..|a + b| - 1] == a + b[..|b| - 1];
      CleanAppend(o, a, b[..|b| - 1], depth);
    }
  }

  lemma CleanOne(o: Options, n: Node, depth: nat)
    ensures CleanAll(o, [n], depth) <==> Clean(o, n, depth)
  {
    hide Clean;
    assert CleanAll(o, [n][..0], depth);
  }

  lemma {:induction false} CleanHigher(o: Options, n: Node, depth: nat)
    requires Clean(o, n, depth + 1)
    ensures Clean(o, n, depth)
    decreases n
  {
    hide DropsSubtree, Unwraps, Allowed, CleanAttrs;
    if n.Element? {
      CleanAllHigher(o, n.children, depth + 1);
    }
  }

  lemma {:induction false} CleanAllHigher(o: Options, ns: seq<Node>, depth: nat)
    requires CleanAll(o, ns, depth + 1)
    ensures CleanAll(o, ns, depth)
    decreases ns
  {
    hide Clean;
    if ns != [] {
      CleanAllHigher(o, ns[..|ns| - 1], depth);
      CleanHigher(o, ns[|ns| - 1], depth);
    }
  }

  lemma AttrStaysClean(o: Options, tag: string, attr: Attr)
    requires UrlsAreStable(o) && SanitizedAttr(o, tag, attr).Some?
    ensures SanitizedAttr(o, tag, SanitizedAttr(o, tag, attr).value) == SanitizedAttr(o, tag, attr)
  {
    hide Trim;
    var (name, value) := attr;
    if (tag == "a" && name == "href") || (tag == "img" && name == "src") {
      assert StableText(o, SanitizeUrl(o, value).value);
    }
  }

  lemma {:induction false} KeptAttrsAreClean(o: Options, tag: string, attrs: seq<Attr>)
    requires UrlsAreStable(o)
    ensures CleanAttrs(o, tag, KeptAttrs(o, tag, attrs))
  {
    hide SanitizedAttr, UrlsAreStable;
    if attrs != [] {
      KeptAttrsAreClean(o, tag, attrs[..|attrs| - 1]);
      if SanitizedAttr(o, tag, attrs[|attrs| - 1]).Some? {
        AttrStaysClean(o, tag, attrs[|attrs| - 1]);
      }
    }
  }

  lemma {:induction false} SanitizedIsClean(o: Options, n: Node, depth: nat)
    requires UrlsAreStable(o)
    ensures CleanAll(o, Sanitized(o, n, depth), depth)
    decreases n
  {
    hide UrlsAreStable, CleanAttrs, FateOf, KeptAttrs;
    if n.Element? && !FateOf(o, n.tag, depth).Drop? {
      SanitizedAllIsClean(o, n.children, depth + 1);
      if FateOf(o, n.tag, depth).Unwrap? {
        CleanAllHigher(o, SanitizedAll(o, n.children, depth + 1), depth);
      } else {
        KeptAttrsAreClean(o, n.tag, n.attrs);
        CleanOne(o, Element(n.tag, KeptAttrs(o, n.tag, n.attrs), SanitizedAll(o, n.children, depth + 1)), depth);
      }
    } else if n.Text? {
      CleanOne(o, n, depth);
    }
  }

  lemma {:induction false} SanitizedAllIsClean(o: Options, ns: seq<Node>, depth: nat)
    requires UrlsAreStable(o)
    ensures CleanAll(o, SanitizedAll(o, ns, depth), depth)
    decreases ns
  {
    hide UrlsAreStable, Sanitized, Clean;
    if ns != [] {
      SanitizedAllIsClean(o, ns[..|ns| - 1], depth);
      SanitizedIsClean(o, ns[|ns| - 1], depth);
      CleanAppend(o, SanitizedAll(o, ns[..|ns| - 1], depth), Sanitized(o, ns[|ns| - 1], depth), depth);
    }
  }

  predicate StripsNothing(m: Metrics) { m.elements == 0 && m.attributes == 0 }

  lemma {:induction false} CleanAttrsAreKept(o: Options, tag: string, attrs: seq<Attr>)
    requires CleanAttrs(o, tag, attrs)
    ensures KeptAttrs(o, tag, attrs) == attrs && StripsNothing(AttrsMetrics(o, tag, attrs))
  {
    hide SanitizedAttr;
    if attrs != [] {
      CleanAttrsAreKept(o, tag, attrs[..|attrs| - 1]);
      assert attrs == attrs[..|attrs| - 1] + [attrs[|attrs| - 1]];
    }
  }

  lemma {:induction false} CleanIsFixed(o: Options, n: Node, depth: nat)
    requires Clean(o, n, depth)
    ensures Sanitized(o, n, depth) == [n] && StripsNothing(MetricsOf(o, n, depth))
    decreases n
  {
    hide CleanAttrs, FateOf, Sanitized, MetricsOf, StripsNothing;
    if n.Element? {
      CleanAllIsFixed(o, n.children, depth + 1);
      CleanAttrsAreKept(o, n.tag, n.attrs);
      KeptElement(o, n.tag, n.attrs, n.children, depth);
    } else {
      TextIsKept(o, n, depth);
    }
  }

  lemma TextIsKept(o: Options, n: Node, depth: nat)
    requires n.Text?
    ensures Sanitized(o, n, depth) == [n] && StripsNothing(MetricsOf(o, n, depth))
  {
  }

  /** An element that is kept with its attributes, and whose children are fixed, is fixed itself. */
  lemma KeptElement(o: Options, tag: string, attrs: seq<Attr>, children: seq<Node>, depth: nat)
    requires FateOf(o, tag, depth).Keep? && KeptAttrs(o, tag, attrs) == attrs &&
        SanitizedAll(o, children, depth + 1) == children
    requires StripsNothing(AttrsMetrics(o, tag, attrs)) && StripsNothing(MetricsOfAll(o, children, depth + 1))
    ensures Sanitized(o, Element(tag, attrs, children), depth) == [Element(tag, attrs, children)]
    ensures StripsNothing(MetricsOf(o, Element(tag, attrs, children), depth))
  {
    hide FateOf, KeptAttrs, AttrsMetrics, SanitizedAll, MetricsOfAll;
  }

  lemma {:induction false} CleanAllIsFixed(o: Options, ns: seq<Node>, depth: nat)
    requires CleanAll(o, ns, depth)
    ensures SanitizedAll(o, ns, depth) == ns && StripsNothing(MetricsOfAll(o, ns, depth))
    decreases ns
  {
    hide Clean, Sanitized, MetricsOf;
    if ns != [] {
      CleanAllIsFixed(o, ns[..|ns| - 1], depth);
      CleanIsFixed(o, ns[|ns| - 1], depth);
      assert ns == ns[..|ns| - 1] + [ns[|ns| - 1]];
    }
  }

  /** A second pass changes nothing and strips nothing. */
  lemma SanitizingIsIdempotent(o: Options, ns: seq<Node>, depth: nat)
    requires UrlsAreStable(o)
    ensures SanitizedAll(o, SanitizedAll(o, ns, depth), depth) == SanitizedAll(o, ns, depth)
    ensures StripsNothing(MetricsOfAll(o, SanitizedAll(o, ns, depth), depth))
  {
    hide UrlsAreStable, StripsNothing;
    SanitizedAllIsClean(o, ns, depth);
    CleanAllIsFixed(o, SanitizedAll(o, ns, depth), depth);
  }

  /** A document as the parser builds it: html around head and body, of which only the body has content. */
  function Document(body: seq<Node>): Node {
    Element("html", [], [Element("head", [], []), Element("body", [], body)])
  }

  lemma DocumentIsItsBody(o: Options, body: seq<Node>)
    ensures Sanitized(o, Document(body), 0) == SanitizedAll(o, body, 2)
    ensures MetricsOf(o, Document(body), 0) == MetricsOfAll(o, body, 2)
  {
    hide Sanitized, SanitizedAll, MetricsOf, MetricsOfAll;
    var head, wrapped := Element("head", [], []), Element("body", [], body);
    UnwrapsTo(o, "html", [head, wrapped], 0);
    UnwrapsTo(o, "head", [], 1);
    UnwrapsTo(o, "body", body, 1);
    NothingInside(o, 2);
    EmptyThen(o, head, wrapped, 1);
  }

  lemma NothingInside(o: Options, depth: nat)
    ensures SanitizedAll(o, [], depth) == [] && MetricsOfAll(o, [], depth) == ZERO
  {
  }

  lemma UnwrapsTo(o: Options, tag: string, children: seq<Node>, depth: nat)
    requires tag in UNWRAP_TAGS && depth <= MAX_ELEMENT_DEPTH
    ensures Sanitized(o, Element(tag, [], children), depth) == SanitizedAll(o, children, depth + 1)
    ensures MetricsOf(o, Element(tag, [], children), depth) == MetricsOfAll(o, children, depth + 1)
  {
    hide SanitizedAll, MetricsOfAll;
    assert FateOf(o, tag, depth) == Unwrap(false) by {
      hide Sanitized, MetricsOf;
      assert tag !in DROP_SUBTREE_TAGS;
    }
  }

  lemma OneMore(o: Options, ns: seq<Node>, n: Node, depth: nat)
    ensures SanitizedAll(o, ns + [n], depth) == SanitizedAll(o, ns, depth) + Sanitized(o, n, depth)
    ensures MetricsOfAll(o, ns + [n], depth) == Plus(MetricsOfAll(o, ns, depth), MetricsOf(o, n, depth))
  {
    hide Sanitized, MetricsOf, Plus;
    assert (ns + [n])[..|ns|] == ns;
  }

  lemma PlusZero(m: Metrics)
    ensures Plus(ZERO, m) == m
  {
  }

  lemma EmptyThen(o: Options, first: Node, second: Node, depth: nat)
    requires Sanitized(o, first, depth) == [] && MetricsOf(o, first, depth) == ZERO
    ensures SanitizedAll(o, [first, second], depth) == Sanitized(o, second, depth)
    ensures MetricsOfAll(o, [first, second], depth) == MetricsOf(o, second, depth)
  {
    hide Sanitized, MetricsOf, SanitizedAll, MetricsOfAll, Plus;
    NothingInside(o, depth);
    PlusZero(ZERO);
    PlusZero(MetricsOf(o, second, depth));
    var none: seq<Node> := [];
    OneMore(o, none, first, depth);
    assert none + [first] == [first];
    OneMore(o, [first], second, depth);
    assert [first] + [second] == [first, second];
  }

  /** Putting the sanitized body back into a document and sanitizing that gives the same body. */
  lemma SanitizingADocumentTwice(o: Options, body: seq<Node>)
    requires UrlsAreStable(o)
    ensures Sanitized(o, Document(Sanitized(o, Document(body), 0)), 0) == Sanitized(o, Document(body), 0)
    ensures StripsNothing(MetricsOf(o, Document(Sanitized(o, Document(body), 0)), 0))
  {
    hide UrlsAreStable, StripsNothing, Sanitized, MetricsOf, Document;
    DocumentIsItsBody(o, body);
    DocumentIsItsBody(o, SanitizedAll(o, body, 2));
    SanitizingIsIdempotent(o, body, 2);
  }

  // ----- Only allowed markup, however URLs resolve

  ghost predicate HttpUrl(o: Options, text: string) {
    exists v: string :: o.resolve(v).Some? && o.resolve(v).value.text == text
                        && (o.resolve(v).value.scheme == "http" || o.resolve(v).value.scheme == "https")
  }

  ghost predicate SafeAttr(o: Options, tag: string, attr: Attr) {
    || (tag == "a" && attr.0 == "href" && HttpUrl(o, attr.1))
    || (tag == "img" && attr.0 == "src" && HttpUrl(o, attr.1))
    || (tag == "img" && attr.0 in {"alt", "title"})
    || (tag == "time" && attr.0 == "datetime")
  }

  ghost predicate SafeAttrs(o: Options, tag: string, attrs: seq<Attr>) {
    forall i :: 0 <= i < |attrs| ==> SafeAttr(o, tag, attrs[i])
  }

  /** The elements that an article may keep. */
  predicate ArticleTag(tag: string) {
    || tag in {"article", "main", "section", "div", "p", "br", "hr", "h1", "h2", "h3", "h4", "h5", "h6", "blockquote"}
    || tag in {"pre", "code", "ul", "ol", "li", "strong", "b", "em", "i", "a", "img"}
    || tag in {"table", "thead", "tbody", "tr", "th", "td", "time", "span"}
  }

  lemma AllowedIsArticle(tag: string)
    ensures Allowed(tag) <==> ArticleTag(tag)
  {
  }

  ghost predicate Safe(o: Options, n: Node)
    decreases n
  {
    match n
    case Text(_) => true
    case Other(_, _) => false
    case Element(tag, attrs, children) =>
      ArticleTag(tag) && (tag == "img" ==> o.keepImages) && SafeAttrs(o, tag, attrs) && SafeAll(o, children)
  }

  ghost predicate SafeAll(o: Options, ns: seq<Node>)
    decreases ns
  {
    ns != [] ==> SafeAll(o, ns[..|ns| - 1]) && Safe(o, ns[|ns| - 1])
  }

  lemma {:induction false} SafeAppend(o: Options, a: seq<Node>, b: seq<Node>)
    ensures SafeAll(o, a + b) <==> SafeAll(o, a) && SafeAll(o, b)
  {
    hide Safe;
    if b == [] {
      assert a + b == a;
    } else {
      assert (a + b)[..|a + b| - 1] == a + b[..|b| - 1];
      SafeAppend(o, a, b[..|b| - 1]);
    }
  }

  lemma SafeOne(o: Options, n: Node)
    ensures SafeAll(o, [n]) <==> Safe(o, n)
  {
    hide Safe;
    assert SafeAll(o, [n][..0]);
  }

  lemma KeptAttrIsSafe(o: Options, tag: string, attr: Attr)
    requires SanitizedAttr(o, tag, attr).Some?
    ensures SafeAttr(o, tag, SanitizedAttr(o, tag, attr).value)
  {
    hide Trim;
  }

  lemma {:induction false} KeptAttrsAreSafe(o: Options, tag: string, attrs: seq<Attr>)
    ensures SafeAttrs(o, tag, KeptAttrs(o, tag, attrs))
  {
    hide SanitizedAttr, SafeAttr;
    if attrs != [] {
      KeptAttrsAreSafe(o, tag, attrs[..|attrs| - 1]);
      if SanitizedAttr(o, tag, attrs[|attrs| - 1]).Some? {
        KeptAttrIsSafe(o, tag, attrs[|attrs| - 1]);
      }
    }
  }

  lemma {:induction false} SanitizedIsSafe(o: Options, n: Node, depth: nat)
    ensures SafeAll(o, Sanitized(o, n, depth))
    decreases n
  {
    hide SafeAttrs, KeptAttrs, Allowed, ArticleTag, DropsSubtree, Unwraps;
    if n.Element? && !FateOf(o, n.tag, depth).Drop? {
      SanitizedAllIsSafe(o, n.children, depth + 1);
      AllowedIsArticle(n.tag);
      if FateOf(o, n.tag, depth).Keep? {
        KeptAttrsAreSafe(o, n.tag, n.attrs);
        SafeOne(o, Element(n.tag, KeptAttrs(o, n.tag, n.attrs), SanitizedAll(o, n.children, depth + 1)));
      }
    } else if n.Text? {
      SafeOne(o, n);
    }
  }

  lemma {:induction false} SanitizedAllIsSafe(o: Options, ns: seq<Node>, depth: nat)
    ensures SafeAll(o, SanitizedAll(o, ns, depth))
    decreases ns
  {
    hide Safe, Sanitized;
    if ns != [] {
      SanitizedAllIsSafe(o, ns[..|ns| - 1], depth);
      SanitizedIsSafe(o, ns[|ns| - 1], depth);
      SafeAppend(o, SanitizedAll(o, ns[..|ns| - 1], depth), Sanitized(o, ns[|ns| - 1], depth));
    }
  }

  // ----- Depth

  /** How many elements that have a closing tag are open at once. */
  function Height(n: Node): nat
    decreases n
  {
    if n.Element? then (if VoidTag(n.tag) then 0 else 1) + HeightAll(n.children) else 0
  }

  function HeightAll(ns: seq<Node>): nat
    decreases ns
  {
    if ns == [] then 0 else Max(HeightAll(ns[..|ns| - 1]), Height(ns[|ns| - 1]))
  }

  lemma {:induction false} HeightAppend(a: seq<Node>, b: seq<Node>)
    ensures HeightAll(a + b) == Max(HeightAll(a), HeightAll(b))
  {
    hide Height;
    if b == [] {
      assert a + b == a;
    } else {
      assert (a + b)[..|a + b| - 1] == a + b[..|b| - 1];
      HeightAppend(a, b[..|b| - 1]);
    }
  }

  lemma HeightOne(n: Node)
    ensures HeightAll([n]) == Height(n)
  {
    hide Height;
    assert HeightAll([n][..0]) == 0;
  }

  lemma {:induction false} DepthIsBounded(o: Options, n: Node, depth: nat)
    ensures HeightAll(Sanitized(o, n, depth)) <= Max(0, 513 - depth)
    decreases n
  {
    hide Allowed, DropsSubtree, Unwraps, VoidTag, KeptAttrs;
    if n.Element? && !FateOf(o, n.tag, depth).Drop? {
      DepthOfAllIsBounded(o, n.children, depth + 1);
      if FateOf(o, n.tag, depth).Keep? {
        HeightOne(Element(n.tag, KeptAttrs(o, n.tag, n.attrs), SanitizedAll(o, n.children, depth + 1)));
      }
    } else if n.Text? {
      HeightOne(n);
    }
  }

  lemma {:induction false} DepthOfAllIsBounded(o: Options, ns: seq<Node>, depth: nat)
    ensures HeightAll(SanitizedAll(o, ns, depth)) <= Max(0, 513 - depth)
    decreases ns
  {
    hide Height, Sanitized;
    if ns != [] {
      DepthOfAllIsBounded(o, ns[..|ns| - 1], depth);
      DepthIsBounded(o, ns[|ns| - 1], depth);
      HeightAppend(SanitizedAll(o, ns[..|ns| - 1], depth), Sanitized(o, ns[|ns| - 1], depth));
    }
  }

  // ----- Text

  function TextOf(n: Node): string
    decreases n
  {
    if n.Text? then n.text else if n.Element? then TextOfAll(n.children) else []
  }

  function TextOfAll(ns: seq<Node>): string
    decreases ns
  {
    if ns == [] then [] else TextOfAll(ns[..|ns| - 1]) + TextOf(ns[|ns| - 1])
  }

  /** Scripts, styles, embedded and drawn content, and forms. */
  predicate ActiveTag(tag: string) {
    || tag in {"script", "style", "noscript", "iframe", "svg", "canvas", "object", "embed"}
    || tag in {"form", "input", "button", "select", "textarea"}
  }

  /** What surrounds the article on a page. */
  predicate FurnitureTag(tag: string) { tag in {"nav", "header", "footer", "aside"} }

  /** A subtree that is left out: too deep, active content or furniture, or an image where none are wanted. */
  predicate Hidden(o: Options, tag: string, depth: nat) {
    depth > 512 || ActiveTag(tag) || FurnitureTag(tag) || (tag == "img" && !o.keepImages)
  }

  function VisibleText(o: Options, n: Node, depth: nat): string
    decreases n
  {
    match n
    case Text(text) => text
    case Other(_, _) => []
    case Element(tag, _, children) => if Hidden(o, tag, depth) then [] else VisibleTextAll(o, children, depth + 1)
  }

  function VisibleTextAll(o: Options, ns: seq<Node>, depth: nat): string
    decreases ns
  {
    if ns == [] then [] else VisibleTextAll(o, ns[..|ns| - 1], depth) + VisibleText(o, ns[|ns| - 1], depth)
  }

  lemma {:induction false} TextAppend(a: seq<Node>, b: seq<Node>)
    ensures TextOfAll(a + b) == TextOfAll(a) + TextOfAll(b)
  {
    hide TextOf;
    if b == [] {
      assert a + b == a;
    } else {
      assert (a + b)[..|a + b| - 1] == a + b[..|b| - 1];
      TextAppend(a, b[..|b| - 1]);
    }
  }

  lemma TextOne(n: Node)
    ensures TextOfAll([n]) == TextOf(n)
  {
    hide TextOf;
    assert TextOfAll([n][..0]) == [];
  }

  lemma HiddenIsDropped(o: Options, tag: string, depth: nat)
    ensures Hidden(o, tag, depth) <==> FateOf(o, tag, depth).Drop?
  {
    assert DropsSubtree(tag) <==> ActiveTag(tag) || FurnitureTag(tag);
    if tag == "img" {
      assert tag in ALLOWED_TAGS && tag !in DROP_SUBTREE_TAGS && tag !in UNWRAP_TAGS;
    }
  }

  /** Sanitizing keeps exactly the text outside hidden subtrees, in order. */
  lemma {:induction false} TextIsPreserved(o: Options, n: Node, depth: nat)
    ensures TextOfAll(Sanitized(o, n, depth)) == VisibleText(o, n, depth)
    decreases n
  {
    hide FateOf, Hidden, KeptAttrs;
    if n.Element? {
      HiddenIsDropped(o, n.tag, depth);
      TextOfAllIsPreserved(o, n.children, depth + 1);
      if FateOf(o, n.tag, depth).Keep? {
        TextOne(Element(n.tag, KeptAttrs(o, n.tag, n.attrs), SanitizedAll(o, n.children, depth + 1)));
      }
    } else if n.Text? {
      TextOne(n);
    }
  }

  lemma {:induction false} TextOfAllIsPreserved(o: Options, ns: seq<Node>, depth: nat)
    ensures TextOfAll(SanitizedAll(o, ns, depth)) == VisibleTextAll(o, ns, depth)
    decreases ns
  {
    hide TextOf, Sanitized, VisibleText;
    if ns != [] {
      TextOfAllIsPreserved(o, ns[..|ns| - 1], depth);
      TextIsPreserved(o, ns[|ns| - 1], depth);
      TextAppend(SanitizedAll(o, ns[..|ns| - 1], depth), Sanitized(o, ns[|ns| - 1], depth));
    }
  }
}
