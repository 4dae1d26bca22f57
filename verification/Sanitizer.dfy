/**
 The HTML sanitizer: a parsed tree becomes a forest of allowed elements, which is printed.  The
 code prints while it walks; Serializer does the same, proved against Sanitized and Print.
 */
module Sanitizer {
  import opened Common
  import opened Nesting

  const MAX_ELEMENT_DEPTH: nat := 512

  const DROP_SUBTREE_TAGS := {
    "script", "style", "noscript", "iframe", "svg", "canvas", "object", "embed", "form", "input",
    "button", "select", "textarea", "nav", "header", "footer", "aside"}

  const UNWRAP_TAGS := {"html", "head", "body"}

  const ALLOWED_TAGS := {
    "article", "main", "section", "div", "p", "br", "hr", "h1", "h2", "h3", "h4", "h5", "h6",
    "blockquote", "pre", "code", "ul", "ol", "li", "strong", "b", "em", "i", "a", "img",
    "table", "thead", "tbody", "tr", "th", "td", "time", "span"}

  type Attr = (string, string)

  datatype Note = Comment | Doctype | Instruction

  datatype Node =
    | Text(text: string)
    | Element(tag: string, attrs: seq<Attr>, children: seq<Node>)
    | Other(kind: Note, text: string)

  datatype Url = Url(scheme: string, text: string)

  /** `resolve` parses a URL, or joins it to the base URL if it does not parse alone. */
  datatype Options = Options(resolve: string -> Option<Url>, keepImages: bool)

  predicate DropsSubtree(tag: string) { tag in DROP_SUBTREE_TAGS }

  predicate Unwraps(tag: string) { tag in UNWRAP_TAGS }

  predicate Allowed(tag: string) { tag in ALLOWED_TAGS }

  predicate VoidTag(tag: string) { tag in VOID_TAGS }

  // ----- One attribute, one element

  function SanitizeUrl(o: Options, value: string): Option<string> {
    var trimmed := Trim(value);
    if trimmed == [] || trimmed[0] == '#' then None else
      var url := o.resolve(trimmed);
      if url.Some? && (url.value.scheme == "http" || url.value.scheme == "https") then Some(url.value.text) else None
  }

  function SanitizedAttr(o: Options, tag: string, attr: Attr): Option<Attr> {
    var (name, value) := attr;
    if (tag == "a" && name == "href") || (tag == "img" && name == "src") then
      var url := SanitizeUrl(o, value);
      if url.None? then None else Some((name, url.value))
    else if (tag == "img" && (name == "alt" || name == "title")) ||
        (tag == "time" && name == "datetime") then Some(attr)
    else None
  }

  function KeptAttrs(o: Options, tag: string, attrs: seq<Attr>): seq<Attr> {
    if attrs == [] then [] else
      var kept := SanitizedAttr(o, tag, attrs[|attrs| - 1]);
      KeptAttrs(o, tag, attrs[..|attrs| - 1]) + (if kept.None? then [] else [kept.value])
  }

  datatype Fate = Drop | Unwrap(counted: bool) | Keep

  /** What happens to an element; `counted` says that unwrapping it counts as stripping it. */
  function FateOf(o: Options, tag: string, depth: nat): Fate {
    if depth > MAX_ELEMENT_DEPTH || DropsSubtree(tag) then Drop
    else if Unwraps(tag) then Unwrap(false)
    else if !Allowed(tag) then Unwrap(true)
    else if tag == "img" && !o.keepImages then Drop
    else Keep
  }

  function Sanitized(o: Options, n: Node, depth: nat): seq<Node>
    decreases n
  {
    match n
    case Text(_) => [n]
    case Other(_, _) => []
    case Element(tag, attrs, children) =>
      match FateOf(o, tag, depth)
      case Drop => []
      case Unwrap(_) => SanitizedAll(o, children, depth + 1)
      case Keep => [Element(tag, KeptAttrs(o, tag, attrs), SanitizedAll(o, children, depth + 1))]
  }

  function SanitizedAll(o: Options, ns: seq<Node>, depth: nat): seq<Node>
    decreases ns
  {
    if ns == [] then [] else SanitizedAll(o, ns[..|ns| - 1], depth) + Sanitized(o, ns[|ns| - 1], depth)
  }

  // ----- Printing

  function EscapeChar(c: char, quoted: bool): string {
    if c == '&' then "&amp;"
    else if c == '<' then "&lt;"
    else if c == '>' then "&gt;"
    else if quoted && c == '"' then "&quot;"
    else [c]
  }

  function Escaped(s: string, quoted: bool): string {
    if s == [] then [] else Escaped(s[..|s| - 1], quoted) + EscapeChar(s[|s| - 1], quoted)
  }

  function PrintAttr(attr: Attr): string { " " + attr.0 + "=\"" + Escaped(attr.1, true) + "\"" }

  function PrintAttrs(attrs: seq<Attr>): string {
    if attrs == [] then [] else PrintAttrs(attrs[..|attrs| - 1]) + PrintAttr(attrs[|attrs| - 1])
  }

  function OpenTag(tag: string, attrs: seq<Attr>): string { "<" + tag + PrintAttrs(attrs) + ">" }

  function CloseTag(tag: string): string { "</" + tag + ">" }

  function PrintNote(kind: Note, text: string): string {
    match kind
    case Comment => "<!--" + text + "-->"
    case Doctype => "<!" + text + ">"
    case Instruction => "<?" + text + ">"
  }

  function Print(n: Node): string
    decreases n
  {
    match n
    case Text(text) => Escaped(text, false)
    case Other(kind, text) => PrintNote(kind, text)
    case Element(tag, attrs, children) =>
      OpenTag(tag, attrs) + PrintAll(children) + (if VoidTag(tag) then [] else CloseTag(tag))
  }

  function PrintAll(ns: seq<Node>): string
    decreases ns
  {
    if ns == [] then [] else PrintAll(ns[..|ns| - 1]) + Print(ns[|ns| - 1])
  }

  // ----- What is counted on the way

  datatype Metrics = Metrics(elements: nat, attributes: nat, links: nat, images: nat)

  function Plus(a: Metrics, b: Metrics): Metrics {
    Metrics(a.elements + b.elements, a.attributes + b.attributes, a.links + b.links, a.images + b.images)
  }

  const ZERO := Metrics(0, 0, 0, 0)

  function AttrMetrics(o: Options, tag: string, attr: Attr): Metrics {
    var kept := SanitizedAttr(o, tag, attr);
    if kept.None? then Metrics(0, 1, 0, 0)
    else Metrics(0, 0, if tag == "a" && kept.value.0 == "href" then 1
                 else 0, if tag == "img" && kept.value.0 == "src" then 1 else 0)
  }

  function AttrsMetrics(o: Options, tag: string, attrs: seq<Attr>): Metrics {
    if attrs == [] then ZERO
    else Plus(AttrsMetrics(o, tag, attrs[..|attrs| - 1]), AttrMetrics(o, tag, attrs[|attrs| - 1]))
  }

  function MetricsOf(o: Options, n: Node, depth: nat): Metrics
    decreases n
  {
    if !n.Element? then ZERO else
      match FateOf(o, n.tag, depth)
      case Drop => Metrics(1, 0, 0, 0)
      case Unwrap(counted) => Plus(Metrics(if counted then 1 else 0, 0, 0, 0), MetricsOfAll(o, n.children, depth + 1))
      case Keep => Plus(AttrsMetrics(o, n.tag, n.attrs), MetricsOfAll(o, n.children, depth + 1))
  }

  function MetricsOfAll(o: Options, ns: seq<Node>, depth: nat): Metrics
    decreases ns
  {
    if ns == [] then ZERO else Plus(MetricsOfAll(o, ns[..|ns| - 1], depth), MetricsOf(o, ns[|ns| - 1], depth))
  }

  // ----- The code

  lemma {:induction false} PrintAppend(a: seq<Node>, b: seq<Node>)
    ensures PrintAll(a + b) == PrintAll(a) + PrintAll(b)
  {
    if b == [] {
      assert a + b == a;
    } else {
      assert (a + b)[..|a + b| - 1] == a + b[..|b| - 1];
      PrintAppend(a, b[..|b| - 1]);
    }
  }

  lemma PrintOne(n: Node)
    ensures PrintAll([n]) == Print(n)
  {
    assert [n][..0] == [];
    assert PrintAll([n][..0]) == "";
  }

  /** What is printed for an attribute of the parsed tree. */
  function AttrText(o: Options, tag: string, attr: Attr): string {
    var kept := SanitizedAttr(o, tag, attr);
    if kept.None? then [] else PrintAttr(kept.value)
  }

  lemma AttrsStep(o: Options, tag: string, attrs: seq<Attr>, i: nat)
    requires i < |attrs|
    ensures PrintAttrs(KeptAttrs(o, tag, attrs[..i + 1]))
        == PrintAttrs(KeptAttrs(o, tag, attrs[..i])) + AttrText(o, tag, attrs[i])
    ensures AttrsMetrics(o, tag, attrs[..i + 1])
        == Plus(AttrsMetrics(o, tag, attrs[..i]), AttrMetrics(o, tag, attrs[i]))
  {
    hide SanitizedAttr, PrintAttr, AttrMetrics;
    assert attrs[..i + 1][..i] == attrs[..i] && attrs[..i + 1][i] == attrs[i];
    var kept, before := SanitizedAttr(o, tag, attrs[i]), KeptAttrs(o, tag, attrs[..i]);
    if kept.Some? {
      assert KeptAttrs(o, tag, attrs[..i + 1]) == before + [kept.value];
      assert (before + [kept.value])[..|before|] == before;
    } else {
      assert KeptAttrs(o, tag, attrs[..i + 1]) == before;
    }
  }

  lemma ChildrenStep(o: Options, children: seq<Node>, depth: nat, i: nat)
    requires i < |children|
    ensures PrintAll(SanitizedAll(o, children[..i + 1], depth)) ==
            PrintAll(SanitizedAll(o, children[..i], depth)) + PrintAll(Sanitized(o, children[i], depth))
    ensures MetricsOfAll(o, children[..i + 1], depth)
        == Plus(MetricsOfAll(o, children[..i], depth), MetricsOf(o, children[i], depth))
  {
    hide Sanitized, PrintAll, MetricsOf, Plus;
    assert children[..i + 1][..i] == children[..i];
    PrintAppend(SanitizedAll(o, children[..i], depth), Sanitized(o, children[i], depth));
  }

  lemma NothingYet(o: Options, tag: string, depth: nat)
    ensures PrintAttrs(KeptAttrs(o, tag, [])) == [] && AttrsMetrics(o, tag, []) == ZERO
    ensures PrintAll(SanitizedAll(o, [], depth)) == [] && MetricsOfAll(o, [], depth) == ZERO
  {
  }

  /** What is printed and counted for an element, by its fate. */
  lemma ElementPrints(o: Options, n: Node, depth: nat)
    requires n.Element?
    ensures FateOf(o, n.tag, depth).Drop? ==>
        PrintAll(Sanitized(o, n, depth)) == [] && MetricsOf(o, n, depth) == Metrics(1, 0, 0, 0)
    ensures FateOf(o, n.tag, depth).Unwrap? ==>
              && PrintAll(Sanitized(o, n, depth)) == PrintAll(SanitizedAll(o, n.children, depth + 1))
              && MetricsOf(o, n, depth) ==
                 Plus(Metrics(if FateOf(o, n.tag, depth).counted then 1 else 0, 0, 0, 0),
                      MetricsOfAll(o, n.children, depth + 1))
    ensures FateOf(o, n.tag, depth).Keep? ==>
              && PrintAll(Sanitized(o, n, depth)) ==
                 OpenTag(n.tag, KeptAttrs(o, n.tag, n.attrs)) + PrintAll(SanitizedAll(o, n.children, depth + 1))
                 + (if VoidTag(n.tag) then [] else CloseTag(n.tag))
              && MetricsOf(o, n, depth) == Plus(AttrsMetrics(o, n.tag, n.attrs), MetricsOfAll(o, n.children, depth + 1))
  {
    hide FateOf, OpenTag, CloseTag, VoidTag, KeptAttrs, AttrsMetrics, Plus, SanitizedAll, MetricsOfAll;
    if FateOf(o, n.tag, depth).Keep? {
      PrintOne(Element(n.tag, KeptAttrs(o, n.tag, n.attrs), SanitizedAll(o, n.children, depth + 1)));
    }
  }

  lemma OpenTagWrites(before: string, tag: string, attrs: seq<Attr>)
    ensures before + "<" + tag + PrintAttrs(attrs) + ">" == before + OpenTag(tag, attrs)
  {
    hide PrintAttrs;
    Assoc(before, "<", tag);
    Assoc(before, "<" + tag, PrintAttrs(attrs));
    Assoc(before, "<" + tag + PrintAttrs(attrs), ">");
  }

  lemma CloseTagWrites(before: string, tag: string)
    ensures before + "</" + tag + ">" == before + CloseTag(tag)
  {
    Assoc(before, "</", tag);
    Assoc(before, "</" + tag, ">");
  }

  lemma AttrWrites(before: string, attr: Attr)
    ensures before + " " + attr.0 + "=\"" + Escaped(attr.1, true) + "\"" == before + PrintAttr(attr)
  {
    hide Escaped;
    Assoc(before, " ", attr.0);
    Assoc(before, " " + attr.0, "=\"");
    Assoc(before, " " + attr.0 + "=\"", Escaped(attr.1, true));
    Assoc(before, " " + attr.0 + "=\"" + Escaped(attr.1, true), "\"");
  }

  lemma PlusFacts(a: Metrics, b: Metrics, c: Metrics)
    ensures Plus(Plus(a, b), c) == Plus(a, Plus(b, c)) && Plus(a, ZERO) == a && Plus(ZERO, a) == a
  {
  }

  class Serializer {
    var output: string
    var metrics: Metrics
    const options: Options

    constructor (o: Options)
      ensures options == o && output == "" && metrics == ZERO
    {
      options, output, metrics := o, "", ZERO;
    }

    method WriteAttr(tag: string, attr: Attr)
      modifies this
      ensures output == old(output) + AttrText(options, tag, attr)
      ensures metrics == Plus(old(metrics), AttrMetrics(options, tag, attr))
    {
      hide SanitizedAttr, Escaped, PrintAttr;
      var kept := SanitizedAttr(options, tag, attr);
      if kept.Some? {
        if tag == "a" && kept.value.0 == "href" {
          metrics := metrics.(links := metrics.links + 1);
        }
        if tag == "img" && kept.value.0 == "src" {
          metrics := metrics.(images := metrics.images + 1);
        }
        AttrWrites(output, kept.value);
        output := output + " ";
        output := output + kept.value.0;
        output := output + "=\"";
        output := output + Escaped(kept.value.1, true);
        output := output + "\"";
      } else {
        metrics := metrics.(attributes := metrics.attributes + 1);
      }
    }

    /** Writes the attributes that may stay, and counts the ones that may not. */
    method WriteAttrs(tag: string, attrs: seq<Attr>)
      modifies this
      ensures output == old(output) + PrintAttrs(KeptAttrs(options, tag, attrs))
      ensures metrics == Plus(old(metrics), AttrsMetrics(options, tag, attrs))
    {
      hide KeptAttrs, PrintAttrs, AttrText, AttrsMetrics, AttrMetrics, Plus;
      NothingYet(options, tag, 0);
      assert attrs[..0] == [];
      PlusFacts(metrics, ZERO, ZERO);
      for i := 0 to |attrs|
        invariant output == old(output) + PrintAttrs(KeptAttrs(options, tag, attrs[..i]))
        invariant metrics == Plus(old(metrics), AttrsMetrics(options, tag, attrs[..i]))
      {
        AttrsStep(options, tag, attrs, i);
        Assoc(old(output), PrintAttrs(KeptAttrs(options, tag, attrs[..i])), AttrText(options, tag, attrs[i]));
        PlusFacts(old(metrics), AttrsMetrics(options, tag, attrs[..i]), AttrMetrics(options, tag, attrs[i]));
        WriteAttr(tag, attrs[i]);
      }
      assert attrs[..|attrs|] == attrs;
    }

    method StripElement()
      modifies this`metrics
      ensures metrics == Plus(old(metrics), Metrics(1, 0, 0, 0))
    {
      metrics := metrics.(elements := metrics.elements + 1);
    }

    /** Appends what is left of a node, and counts what was stripped. */
    method SerializeSanitizedNode(n: Node, depth: nat)
      modifies this
      ensures output == old(output) + PrintAll(Sanitized(options, n, depth))
      ensures metrics == Plus(old(metrics), MetricsOf(options, n, depth))
      decreases n, 1
    {
      hide DropsSubtree, Unwraps, Allowed, VoidTag, PrintAll, Sanitized, SanitizedAll, MetricsOf, MetricsOfAll,
           KeptAttrs, PrintAttrs,
           AttrsMetrics, Escaped, Plus, OpenTag, CloseTag;
      if !n.Element? {
        LeafPrints(options, n, depth);
        PlusFacts(metrics, ZERO, ZERO);
        if n.Text? {
          output := output + Escaped(n.text, false);
        }
        return;
      }
      var tag := n.tag;
      ElementPrints(options, n, depth);
      if depth > MAX_ELEMENT_DEPTH {
        StripElement();
        return;
      }
      if DropsSubtree(tag) {
        StripElement();
        return;
      }
      if Unwraps(tag) || !Allowed(tag) {
        PlusFacts(metrics, Metrics(1, 0, 0, 0), MetricsOfAll(options, n.children, depth + 1));
        PlusFacts(MetricsOfAll(options, n.children, depth + 1), ZERO, ZERO);
        if !Unwraps(tag) && !Allowed(tag) {
          StripElement();
        }
        SerializeChildren(n, depth);
        return;
      }
      if tag == "img" && !options.keepImages {
        StripElement();
        return;
      }
      SerializeKept(n, depth);
    }

    method SerializeKept(n: Node, depth: nat)
      requires n.Element?
      modifies this
      ensures output == old(output) + (OpenTag(n.tag, KeptAttrs(options, n.tag, n.attrs)) +
                        PrintAll(SanitizedAll(options, n.children, depth + 1)) + (if VoidTag(n.tag) then []
                                                                                  else CloseTag(n.tag)))
      ensures metrics == Plus(old(metrics),
                              Plus(AttrsMetrics(options, n.tag, n.attrs), MetricsOfAll(options, n.children, depth + 1)))
      decreases n, 0, 1
    {
      hide VoidTag, PrintAll, SanitizedAll, MetricsOfAll, KeptAttrs, PrintAttrs, AttrsMetrics, OpenTag, CloseTag, Plus;
      ghost var start := output;
      ghost var open, inner := OpenTag(n.tag, KeptAttrs(options, n.tag, n.attrs)),
          PrintAll(SanitizedAll(options, n.children, depth + 1));
      OpenTagWrites(start, n.tag, KeptAttrs(options, n.tag, n.attrs));
      PlusFacts(metrics, AttrsMetrics(options, n.tag, n.attrs), MetricsOfAll(options, n.children, depth + 1));
      output := output + "<";
      output := output + n.tag;
      WriteAttrs(n.tag, n.attrs);
      output := output + ">";
      SerializeChildren(n, depth);
      Assoc(start, open, inner);
      Assoc(start, open + inner, CloseTag(n.tag));
      CloseTagWrites(output, n.tag);
      if !VoidTag(n.tag) {
        output := output + "</";
        output := output + n.tag;
        output := output + ">";
      }
    }

    method SerializeChildren(n: Node, depth: nat)
      requires n.Element?
      modifies this
      ensures output == old(output) + PrintAll(SanitizedAll(options, n.children, depth + 1))
      ensures metrics == Plus(old(metrics), MetricsOfAll(options, n.children, depth + 1))
      decreases n, 0, 0
    {
      hide PrintAll, Sanitized, SanitizedAll, MetricsOf, MetricsOfAll, Plus;
      var children := n.children;
      NothingYet(options, "", depth + 1);
      assert children[..0] == [];
      PlusFacts(metrics, ZERO, ZERO);
      for i := 0 to |children|
        invariant output == old(output) + PrintAll(SanitizedAll(options, children[..i], depth + 1))
        invariant metrics == Plus(old(metrics), MetricsOfAll(options, children[..i], depth + 1))
      {
        ChildrenStep(options, children, depth + 1, i);
        PlusFacts(old(metrics), MetricsOfAll(options, children[..i], depth + 1),
                  MetricsOf(options, children[i], depth + 1));
        Assoc(old(output), PrintAll(SanitizedAll(options, children[..i], depth + 1)),
              PrintAll(Sanitized(options, children[i], depth + 1)));
        SerializeSanitizedNode(children[i], depth + 1);
      }
      assert children[..|children|] == children;
    }
  }

  lemma LeafPrints(o: Options, n: Node, depth: nat)
    requires !n.Element?
    ensures PrintAll(Sanitized(o, n, depth)) == (if n.Text? then Escaped(n.text, false) else []) &&
        MetricsOf(o, n, depth) == ZERO
  {
    hide Escaped;
    PrintOne(n);
  }
}
