/**
 The scanner that rejects HTML nested too deeply before it is parsed.  It works on bytes; a byte
 is written as the character with its code.
 */
module Nesting {
  import opened Common
  import opened UrlIdentity

  type Bytes = string

  const MAX_PREPARSE_DEPTH: nat := 2048

  const VOID_TAGS := {
    "area", "base", "br", "col", "embed", "hr", "img", "input", "link", "meta", "param", "source", "track", "wbr"}

  const AUTO_CLOSING := {
    "p", "li", "dt", "dd", "tr", "td", "th", "option", "optgroup", "caption", "colgroup", "thead", "tbody", "tfoot",
    "rt", "rp"}

  predicate IsVoid(name: Bytes) { Lower(name) in VOID_TAGS }

  predicate IsAutoClosing(name: Bytes) { Lower(name) in AUTO_CLOSING }

  predicate IsAlphabetic(c: char) { 'a' <= c <= 'z' || 'A' <= c <= 'Z' }

  predicate IsAlphanumeric(c: char) { IsAlphabetic(c) || '0' <= c <= '9' }

  predicate IsNameByte(c: char) { IsAlphanumeric(c) || c == '-' || c == ':' }

  // ----- Searches

  predicate OccursAt(b: Bytes, i: nat, needle: Bytes, anyCase: bool) {
    i + |needle| <= |b| && (if anyCase then Lower(b[i..i + |needle|]) == Lower(needle)
                            else b[i..i + |needle|] == needle)
  }

  /** The first occurrence at or after `from`. */
  function Find(b: Bytes, from: nat, needle: Bytes, anyCase: bool): (r: Option<nat>)
    ensures r.Some? ==> from <= r.value && OccursAt(b, r.value, needle, anyCase)
    ensures forall i :: from <= i < (if r.Some? then r.value else |b|) ==> !OccursAt(b, i, needle, anyCase)
    decreases |b| - from
  {
    if from + |needle| > |b| then None
    else if OccursAt(b, from, needle, anyCase) then Some(from)
    else Find(b, from + 1, needle, anyCase)
  }

  function PastQuote(b: Bytes, i: nat, quote: char): (r: nat)
    requires i <= |b|
    ensures i <= r <= |b|
    ensures quote !in b[i..if i < r && b[r - 1] == quote then r - 1 else r]
    decreases |b| - i
  {
    if i == |b| then i else if b[i] == quote then i + 1 else PastQuote(b, i + 1, quote)
  }

  /** Just past the end of a tag, with quoted text passed over; false if the tag is never closed. */
  function TagEnd(b: Bytes, i: nat): (r: (nat, bool))
    requires i <= |b|
    ensures i <= r.0 <= |b|
    ensures r.1 ==> r.0 > i && b[r.0 - 1] == '>'
    ensures !r.1 ==> r.0 == |b|
    decreases |b| - i
  {
    if i == |b| then (i, false)
    else if b[i] == '>' then (i + 1, true)
    else if b[i] == '"' || b[i] == '\'' then TagEnd(b, PastQuote(b, i + 1, b[i]))
    else if b[i] == '/' && i + 1 < |b| && b[i + 1] == '>' then (i + 2, true)
    else TagEnd(b, i + 1)
  }

  function NameEnd(b: Bytes, i: nat): (r: nat)
    requires i <= |b|
    ensures i <= r <= |b|
    ensures forall k :: i <= k < r ==> IsNameByte(b[k])
    ensures r < |b| ==> !IsNameByte(b[r])
    decreases |b| - i
  {
    if i < |b| && IsNameByte(b[i]) then NameEnd(b, i + 1) else i
  }

  // ----- One construct at a time

  datatype Scan = Scan(index: nat, depth: nat, deepest: nat, lastOpen: Option<Bytes>)

  predicate RawText(name: Bytes) { Lower(name) == "script" || Lower(name) == "style" }

  function Closer(name: Bytes): Bytes { if Lower(name) == "script" then "</script" else "</style" }

  function Opened(s: Scan, name: Bytes, end: nat): Scan {
    if IsAutoClosing(name) && s.lastOpen == Some(name) then s.(index := end)
    else Scan(end, s.depth + 1, Max(s.deepest, s.depth + 1), Some(name))
  }

  /** After a start tag with this name, whose end is at `end` if it was found. */
  function AfterNamed(b: Bytes, s: Scan, name: Bytes, end: nat, found: bool): (r: Option<Scan>)
    requires s.index + 2 <= end <= |b|
    ensures r.Some? ==> s.index < r.value.index <= |b| && r.value.deepest >= s.deepest
  {
    if RawText(name) then
      var position := Find(b, end, Closer(name), true);
      if position.None? then None else Some(s.(index := position.value))
    else if !found || b[end - 2] == '/' || IsVoid(name) then Some(s.(index := end))
    else Some(Opened(s, name, end))
  }

  function AfterTag(b: Bytes, s: Scan): (r: Option<Scan>)
    requires s.index + 1 < |b| && b[s.index] == '<' && IsAlphabetic(b[s.index + 1])
    ensures r.Some? ==> s.index < r.value.index <= |b| && r.value.deepest >= s.deepest
  {
    var nameEnd := NameEnd(b, s.index + 1);
    var (end, found) := TagEnd(b, nameEnd);
    AfterNamed(b, s, b[s.index + 1..nameEnd], end, found)
  }

  /** The construct at the scan's position; None where the scan gives up. */
  function Advance(b: Bytes, s: Scan): (r: Option<Scan>)
    requires s.index < |b|
    ensures r.Some? ==> s.index < r.value.index <= |b| && r.value.deepest >= s.deepest
  {
    var i := s.index;
    if b[i] != '<' then Some(s.(index := i + 1))
    else if i + 1 == |b| then None
    else if b[i + 1] == '!' then
      if i + 3 < |b| && b[i + 2] == '-' && b[i + 3] == '-' then
        var end := Find(b, i + 4, "-->", false);
        if end.None? then None else Some(s.(index := end.value + 3))
      else
        var end := Find(b, i + 2, ">", false);
        if end.None? then None else Some(s.(index := end.value + 1))
    else if b[i + 1] == '/' then
      var (end, found) := TagEnd(b, i + 2);
      if found then Some(Scan(end, Max(s.depth - 1, 0), s.deepest, None)) else Some(s.(index := end))
    else if b[i + 1] == '?' then
      var end := Find(b, i + 2, ">", false);
      if end.None? then None else Some(s.(index := end.value + 1))
    else if IsAlphabetic(b[i + 1]) then AfterTag(b, s)
    else Some(s.(index := i + 1))
  }

  function ScanFrom(b: Bytes, s: Scan): (r: Scan)
    requires s.index <= |b|
    ensures r.deepest >= s.deepest
    decreases |b| - s.index
  {
    if s.index == |b| then s else
      var next := Advance(b, s);
      if next.None? then s else ScanFrom(b, next.value)
  }

  const START := Scan(0, 0, 0, None)

  /** The greatest depth the scan counts when it runs to its end. */
  function Deepest(b: Bytes): nat { ScanFrom(b, START).deepest }

  // ----- The code

  lemma TagEndStep(b: Bytes, i: nat)
    requires i < |b|
    ensures TagEnd(b, i) ==
            if b[i] == '>' then (i + 1, true)
            else if b[i] == '"' || b[i] == '\'' then TagEnd(b, PastQuote(b, i + 1, b[i]))
            else if b[i] == '/' && i + 1 < |b| && b[i + 1] == '>' then (i + 2, true)
            else TagEnd(b, i + 1)
  {
  }

  lemma PastQuoteStep(b: Bytes, i: nat, quote: char)
    requires i <= |b|
    ensures PastQuote(b, i, quote) == if i == |b| then i else if b[i] == quote then i + 1
        else PastQuote(b, i + 1, quote)
  {
  }

  lemma NameEndStep(b: Bytes, i: nat)
    requires i <= |b|
    ensures NameEnd(b, i) == if i < |b| && IsNameByte(b[i]) then NameEnd(b, i + 1) else i
  {
  }

  /** The inner loop: past the closing quote, or to the end. */
  method SkipQuoted(b: Bytes, from: nat, quote: char) returns (index: nat)
    requires from <= |b|
    ensures index == PastQuote(b, from, quote)
  {
    hide PastQuote;
    index := from;
    while index < |b| && b[index] != quote
      invariant from <= index <= |b| && PastQuote(b, index, quote) == PastQuote(b, from, quote)
    {
      PastQuoteStep(b, index, quote);
      index := index + 1;
    }
    PastQuoteStep(b, index, quote);
    index := index + (if index < |b| then 1 else 0);
  }

  method SkipToTagEnd(b: Bytes, from: nat) returns (end: nat, found: bool)
    requires from <= |b|
    ensures (end, found) == TagEnd(b, from)
  {
    hide TagEnd, PastQuote;
    var index := from;
    while index < |b|
      invariant index <= |b| && TagEnd(b, index) == TagEnd(b, from)
    {
      TagEndStep(b, index);
      if b[index] == '>' {
        return index + 1, true;
      } else if b[index] == '"' || b[index] == '\'' {
        index := SkipQuoted(b, index + 1, b[index]);
      } else if b[index] == '/' && index + 1 < |b| && b[index + 1] == '>' {
        return index + 2, true;
      } else {
        index := index + 1;
      }
    }
    NoTagEnd(b);
    return |b|, false;
  }

  lemma NoTagEnd(b: Bytes)
    ensures TagEnd(b, |b|) == (|b|, false)
  {
  }

  /** The branch for a start tag. */
  method ReadTag(b: Bytes, index: nat, depth: nat, maxDepth: nat, lastOpen: Option<Bytes>) returns (r: Option<Scan>)
    requires index + 1 < |b| && b[index] == '<' && IsAlphabetic(b[index + 1])
    ensures r == AfterTag(b, Scan(index, depth, maxDepth, lastOpen))
  {
    hide Find, TagEnd, NameEnd, IsVoid, IsAutoClosing, OccursAt, Lower, PastQuote, RawText, Closer;
    var nameEnd := index + 1;
    while nameEnd < |b| && (IsAlphanumeric(b[nameEnd]) || b[nameEnd] == '-' || b[nameEnd] == ':')
      invariant index + 1 <= nameEnd <= |b| && NameEnd(b, nameEnd) == NameEnd(b, index + 1)
    {
      NameEndStep(b, nameEnd);
      nameEnd := nameEnd + 1;
    }
    NameEndStep(b, nameEnd);
    var name := b[index + 1..nameEnd];
    var tagEnd, found := SkipToTagEnd(b, nameEnd);
    if RawText(name) {
      var position := Find(b, tagEnd, Closer(name), true);
      return if position.None? then None else Some(Scan(position.value, depth, maxDepth, lastOpen));
    }
    var selfClosing := found && tagEnd >= 2 && b[tagEnd - 2] == '/';
    var skipped := !found || selfClosing || IsVoid(name);
    if !(skipped || (IsAutoClosing(name) && lastOpen == Some(name))) {
      r := Some(Scan(tagEnd, depth + 1, if depth + 1 > maxDepth then depth + 1 else maxDepth, Some(name)));
    } else {
      r := Some(Scan(tagEnd, depth, maxDepth, lastOpen));
    }
  }

  /** Stopping as soon as the limit is passed gives the answer of the whole scan, on any bytes. */
  method NestingDepthExceedsLimit(b: Bytes) returns (r: bool)
    ensures r <==> Deepest(b) > MAX_PREPARSE_DEPTH
  {
    hide Find, TagEnd, AfterTag, ScanFrom, OccursAt;
    var index: nat, depth: nat, maxDepth: nat := 0, 0, 0;
    var lastOpen: Option<Bytes> := None;
    while index < |b|
      invariant index <= |b| && maxDepth <= MAX_PREPARSE_DEPTH
      invariant ScanFrom(b, Scan(index, depth, maxDepth, lastOpen)) == ScanFrom(b, START)
    {
      ScanStep(b, Scan(index, depth, maxDepth, lastOpen));
      if b[index] != '<' {
        index := index + 1;
      } else if index + 1 == |b| {
        break;
      } else if b[index + 1] == '!' {
        if index + 3 < |b| && b[index + 2] == '-' && b[index + 3] == '-' {
          var end := Find(b, index + 4, "-->", false);
          if end.None? {
            break;
          }
          index := end.value + 3;
        } else {
          var end := Find(b, index + 2, ">", false);
          if end.None? {
            break;
          }
          index := end.value + 1;
        }
      } else if b[index + 1] == '/' {
        var end, found := SkipToTagEnd(b, index + 2);
        if found {
          depth := if depth == 0 then 0 else depth - 1;
          lastOpen := None;
        }
        index := end;
      } else if b[index + 1] == '?' {
        var end := Find(b, index + 2, ">", false);
        if end.None? {
          break;
        }
        index := end.value + 1;
      } else if IsAlphabetic(b[index + 1]) {
        var next := ReadTag(b, index, depth, maxDepth, lastOpen);
        if next.None? {
          break;
        }
        index, depth, maxDepth, lastOpen := next.value.index, next.value.depth, next.value.deepest, next.value.lastOpen;
        if maxDepth > MAX_PREPARSE_DEPTH {
          return true;
        }
      } else {
        index := index + 1;
      }
    }
    ScanEnds(b, Scan(|b|, depth, maxDepth, lastOpen));
    return false;
  }

  lemma ScanStep(b: Bytes, s: Scan)
    requires s.index < |b|
    ensures ScanFrom(b, s) == if Advance(b, s).None? then s else ScanFrom(b, Advance(b, s).value)
  {
  }

  lemma ScanEnds(b: Bytes, s: Scan)
    requires s.index == |b|
    ensures ScanFrom(b, s) == s
  {
  }
}
