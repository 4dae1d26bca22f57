/**
 When the greatest depth that the nesting scanner counts, which is what the guard compares with its limit, is the
 true nesting of a document.
 */
module GreatestDepth {
  import opened Common
  import opened Nesting
  import opened Sanitizer
  import opened SanitizerLaws
  import opened PrintedNesting

  // ----- Reaching the deepest element without a miss

  /** Nothing in these nodes makes the scanner lose count if they stand inside an element. */
  predicate Unbroken(ns: seq<Node>) { DistinctAll(ns) && !HasRawAll(ns) }

  /**
   The scanner has the true depth when it reaches a deepest element of this node: no tag has repeated, and no script or
   style has come inside an element, on the way there.  `inside` says whether the node itself stands inside an element.
   */
  predicate Reaches(n: Node, inside: bool)
    requires Nest(n) > 0
    decreases n
  {
    if IsVoid(n.tag) then ReachesIn(n.children, inside)
    else
      NestingOf(n.children) == 0 || (!RepeatsFirst(Some(n.tag), FirstOpenOf(n.children)) && ReachesIn(n.children, true))
  }

  /**
   The same for the deepest elements of a forest; inside an element, what comes before the node must not lose count.
   */
  predicate ReachesIn(ns: seq<Node>, inside: bool)
    requires NestingOf(ns) > 0
    decreases ns
  {
    var front, last := ns[..|ns| - 1], ns[|ns| - 1];
    || (NestingOf(front) >= Nest(last) && ReachesIn(front, inside))
    || (NestingOf(front) <= Nest(last) && (inside ==> Unbroken(front)) && Reaches(last, inside))
  }

  /** Outside all elements, it is enough that one of the trees with the greatest nesting is reached. */
  predicate SomeTreeReaches(ns: seq<Node>) {
    exists i :: 0 <= i < |ns| && Nest(ns[i]) == NestingOf(ns) && Nest(ns[i]) > 0 && Reaches(ns[i], false)
  }

  lemma {:induction false} NestingBounds(ns: seq<Node>, i: nat)
    requires i < |ns|
    ensures Nest(ns[i]) <= NestingOf(ns)
  {
    hide Nest;
    if i < |ns| - 1 {
      NestingBounds(ns[..|ns| - 1], i);
    }
  }

  lemma {:induction false} OutsideOneTreeDecides(ns: seq<Node>)
    requires NestingOf(ns) > 0
    ensures ReachesIn(ns, false) <==> SomeTreeReaches(ns)
  {
    hide Nest, Reaches;
    assert ns != [];
    hide NestingOf;
    var front, last := ns[..|ns| - 1], ns[|ns| - 1];
    ForestNesting(ns);
    if NestingOf(front) >= Nest(last) {
      OutsideOneTreeDecides(front);
      if SomeTreeReaches(front) {
        var i :| 0 <= i < |front| && Nest(front[i]) == NestingOf(front) && Nest(front[i]) > 0 &&
            Reaches(front[i], false);
        assert ns[i] == front[i];
      }
    }
    if i :| 0 <= i < |ns| && Nest(ns[i]) == NestingOf(ns) && Nest(ns[i]) > 0 && Reaches(ns[i], false) {
      if i < |front| {
        assert front[i] == ns[i];
        NestingBounds(front, i);
      }
    }
  }

  lemma ForestNesting(ns: seq<Node>)
    requires ns != []
    ensures NestingOf(ns) == Max(NestingOf(ns[..|ns| - 1]), Nest(ns[|ns| - 1]))
  {
    hide Nest;
  }

  // ----- What following a node does to the depth and to the greatest depth

  /** Every element is counted at most once, and outside all elements no tag is remembered. */
  predicate Good(k: Track) {
    k.low <= k.open <= k.height && k.depth <= k.open && (k.open == 0 ==> k.last.None?)
  }

  /** The count is exact and the next opening tag, named `first`, does not repeat the last one. */
  predicate Enters(k: Track, first: Option<string>) { k.depth == k.open && !RepeatsFirst(k.last, first) }

  /** `reaches` stands for reaching a deepest one of the nodes with the shape p, `unbroken` for not losing count. */
  ghost predicate Counts(k: Track, after: Track, p: Shape, reaches: bool) {
    && Good(after) && k.deepest <= after.deepest <= Max(k.deepest, k.open + p.nesting)
    && (after.depth == after.open <==> k.open == 0 || (Enters(k, p.first) && p.distinct && !p.raw))
    && (p.nesting == 0 ==> after.deepest == k.deepest)
    && (p.nesting > 0 ==> p.first.Some?)
    && (p.nesting > 0 ==> (after.deepest >= k.open + p.nesting <==>
                           k.deepest >= k.open + p.nesting || (Enters(k, p.first) && reaches)))
  }

  lemma {:induction false} NodeCounts(k: Track, n: Node)
    requires Good(k)
    ensures Counts(k, FollowAll(k, Tokens(n)), ShapeOf(n), Nest(n) > 0 && Reaches(n, k.open > 0))
    decreases n, 2
  {
    hide IsVoid, Repeats, RawText, TokensAll, NestingOf, FirstOpenOf, DistinctAll, HasRawAll, RawInsideAll, ReachesIn;
    NodeReturns(k, n);
    match n
    case Text(text) =>
      FollowOne(k, Chars(text));
    case Other(kind, text) =>
      FollowOne(k, Aside(kind, text));
    case Element(tag, attrs, children) =>
      if RawText(tag) {
        FollowOne(k, Raw(tag, attrs, TextOfAll(children)));
        RawNeverRepeats(k.last, tag);
        RawIsNotVoid(tag);
      } else {
        ElementCounts(k, tag, attrs, children);
      }
  }

  /** From inside an element to around it: one tag opens before, and closes after, what has the shape p. */
  lemma TagCounts(k: Track, tag: string, attrs: seq<Attr>, mid: Track, p: Shape, reaches: bool)
    requires Good(k) && !IsVoid(tag)
    requires var inner := Follow(k, Open(tag, attrs));
             Counts(inner, mid, p, reaches) && mid.open == inner.open && mid.low == inner.low
    ensures var distinct := p.distinct && !RepeatsFirst(Some(tag), p.first);
            var around := Shape(Some(tag), 1 + p.nesting, distinct, p.raw, p.inside);
            Counts(k, Follow(mid, Close(tag)), around, p.nesting == 0 || (!RepeatsFirst(Some(tag), p.first) && reaches))
  {
    hide IsVoid, Repeats;
  }

  lemma {:induction false} ElementCounts(k: Track, tag: string, attrs: seq<Attr>, children: seq<Node>)
    requires Good(k) && !RawText(tag)
    ensures var n := Element(tag, attrs, children);
            Counts(k, FollowAll(k, Tokens(n)), ShapeOf(n), Nest(n) > 0 && Reaches(n, k.open > 0))
    decreases children, 1
  {
    hide IsVoid, Repeats, RawText, Tokens, TokensAll, NestingOf, FirstOpenOf, DistinctAll, HasRawAll, RawInsideAll,
         ReachesIn, FollowAll;
    var inner := Follow(k, Open(tag, attrs));
    ElementFollows(k, tag, attrs, children);
    ForestReturns(inner, children);
    ForestCounts(inner, children);
    if !IsVoid(tag) {
      var reaches := NestingOf(children) > 0 && ReachesIn(children, true);
      TagCounts(k, tag, attrs, AfterOpen(k, tag, attrs, children), ShapeOfAll(children), reaches);
    }
  }

  lemma {:induction false} ForestCounts(k: Track, ns: seq<Node>)
    requires Good(k)
    ensures Counts(k, FollowAll(k, TokensAll(ns)), ShapeOfAll(ns), NestingOf(ns) > 0 && ReachesIn(ns, k.open > 0))
    decreases ns, 0
  {
    hide Tokens, FirstOpen, Nest, Distinct, HasRaw, RawInside, Repeats, Reaches;
    if ns != [] {
      var front, last := ns[..|ns| - 1], ns[|ns| - 1];
      var mid := FollowAll(k, TokensAll(front));
      ForestReturns(k, front);
      ForestCounts(k, front);
      NodeReturns(mid, last);
      NodeCounts(mid, last);
      NothingRepeatsAtFirst(FirstOpen(last));
      NothingRepeatsAtFirst(FirstOpenOf(ns));
      FollowConcat(k, TokensAll(front), Tokens(last));
    }
  }

  // ----- The main result

  /**
   On the HTML of any forest whose tokens can be told apart again, scripts and styles included, the greatest depth that
   the scanner counts is the true nesting exactly if there is no nesting, or in one of the trees of greatest nesting
   the scanner reaches a deepest element before any tag repeats and before any script or style inside an element.
   */
  lemma GreatestDepthIsExactWhen(ns: seq<Node>)
    requires PlainTokens(TokensAll(ns))
    ensures Deepest(Utf8(HtmlOf(ns))) == NestingOf(ns) <==> NestingOf(ns) == 0 || SomeTreeReaches(ns)
  {
    hide TokensAll, PrintTokens, NestingOf, Utf8, FirstOpenOf, DistinctAll, HasRawAll, RawInsideAll, ScanFrom,
         FollowAll, PlainTokens;
    hide ReachesIn, SomeTreeReaches;
    var ts, b := TokensAll(ns), Utf8(HtmlOf(ns));
    ScanPassesTokens(b, 0, ts);
    ScanEnds(b, ScanAt(|b|, FollowAll(ORIGIN, ts)));
    ForestCounts(ORIGIN, ns);
    NothingRepeatsAtFirst(FirstOpenOf(ns));
    if NestingOf(ns) > 0 {
      OutsideOneTreeDecides(ns);
    }
  }
}
