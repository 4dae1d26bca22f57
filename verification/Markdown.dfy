/**
 The Markdown normalizer: blank runs collapse to one gap, a long line is kept only the first time,
 and the whole is trimmed.  One pass reaches a fixed point.
 */
module Markdown {
  import opened Common
  import opened UrlIdentity

  const LONG_LINE := 80

  // ----- Rust's str::lines

  function WithoutCr(line: string): string {
    if line != [] && line[|line| - 1] == '\r' then line[..|line| - 1] else line
  }

  function Lines(s: string): seq<string>
    decreases |s|
  {
    if s == [] then []
    else
      var line := Before(s, '\n');
      if |line| == |s| then [s] else [WithoutCr(line)] + Lines(s[|line| + 1..])
  }

  lemma FirstLine(line: string, rest: string)
    requires '\n' !in line
    ensures Lines(line + "\n" + rest) == [WithoutCr(line)] + Lines(rest)
  {
    var s := line + "\n" + rest;
    assert s == line + ("\n" + rest);
    BeforePrefix(line, "\n" + rest, '\n');
    assert Before(s, '\n') == line;
    assert s[|line| + 1..] == rest;
  }

  lemma OneLine(line: string)
    requires '\n' !in line && line != [] && line[|line| - 1] != '\r'
    ensures Lines(line) == [line] && Lines(line + "\n") == [line]
  {
    var none: string := [];
    FirstLine(line, none);
    assert line + "\n" + none == line + "\n";
    assert Lines(none) == [];
  }

  lemma SplitLine(s: string) returns (line: string, rest: string)
    requires '\n' in s
    ensures s == line + "\n" + rest && '\n' !in line
  {
    line := Before(s, '\n');
    assert |line| < |s|;
    rest := s[|line| + 1..];
  }

  /** A newline after the last line makes no difference. */
  lemma {:induction false} LastNewline(s: string)
    requires s != [] && s[|s| - 1] != '\n' && s[|s| - 1] != '\r'
    ensures Lines(s + "\n") == Lines(s)
    decreases |s|
  {
    hide Lines;
    if '\n' in s {
      var line, rest := SplitLine(s);
      assert rest[|rest| - 1] == s[|s| - 1];
      Assoc(line + "\n", rest, "\n");
      FirstLine(line, rest);
      FirstLine(line, rest + "\n");
      LastNewline(rest);
    } else {
      OneLine(s);
    }
  }

  // ----- The lines that are kept

  /** A kept line, and whether a gap goes before it. */
  datatype Para = Para(gap: bool, text: string)

  datatype Progress = Progress(paras: seq<Para>, blank: bool)

  predicate HasText(paras: seq<Para>, text: string) {
    exists i :: 0 <= i < |paras| && paras[i].text == text
  }

  predicate Long(text: string) { ByteLen(text) > LONG_LINE }

  function Step(p: Progress, line: string): Progress {
    var text := Trim(line);
    if text == [] then Progress(p.paras, p.blank || p.paras != [])
    else if Long(text) && HasText(p.paras, text) then p
    else Progress(p.paras + [Para(p.blank, text)], false)
  }

  function Read(p: Progress, lines: seq<string>): Progress
    decreases |lines|
  {
    if lines == [] then p else Read(Step(p, lines[0]), lines[1..])
  }

  function Gap(gap: bool): string { if gap then "\n\n" else [] }

  function RenderOne(para: Para): string { Gap(para.gap) + para.text + "\n" }

  function Render(paras: seq<Para>): string {
    if paras == [] then [] else RenderOne(paras[0]) + Render(paras[1..])
  }

  function Written(p: Progress): string { Render(p.paras) + Gap(p.blank) }

  function Normalized(value: string): string { Trim(Written(Read(Progress([], false), Lines(value)))) }

  lemma {:induction false} RenderAppend(paras: seq<Para>, last: Para)
    ensures Render(paras + [last]) == Render(paras) + RenderOne(last)
  {
    hide RenderOne;
    if paras == [] {
      assert paras + [last] == [last] && [last][1..] == [];
    } else {
      assert (paras + [last])[1..] == paras[1..] + [last];
      RenderAppend(paras[1..], last);
      Assoc(RenderOne(paras[0]), Render(paras[1..]), RenderOne(last));
    }
  }

  lemma RenderOneWrites(before: string, para: Para)
    ensures before + RenderOne(para) == before + Gap(para.gap) + para.text + "\n"
  {
    Assoc(before, Gap(para.gap), para.text);
    Assoc(before, Gap(para.gap) + para.text, "\n");
  }

  // ----- The code

  /** Until a line is kept the output is empty, and from then on it is more than whitespace. */
  lemma OutputIsBlankOnlyAtTheStart(p: Progress)
    requires Tidy(p.paras) && (p.paras == [] ==> !p.blank)
    ensures Trim(Written(p)) == [] <==> p.paras == []
  {
    if p.paras != [] {
      var text := p.paras[0].text;
      assert Written(p)[0] == text[0];
    }
  }

  method NormalizeMarkdown(value: string) returns (r: string)
    ensures r == Normalized(value)
  {
    hide Tidy, Render, Trim, Step, Written, HasText, Long;
    var output, blankSeen, seenLines := [], false, {};
    ghost var p := Progress([], false);
    var lines := Lines(value);
    NothingKept();
    for i := 0 to |lines|
      invariant Read(Progress([], false), lines) == Read(p, lines[i..])
      invariant output == Written(p) && blankSeen == p.blank
      invariant forall text :: text in seenLines <==> HasText(p.paras, text)
      invariant Tidy(p.paras) && (p.paras == [] ==> !p.blank)
    {
      assert lines[i..][0] == lines[i] && lines[i..][1..] == lines[i + 1..];
      var trimmed := Trim(lines[i]);
      LinesHaveNoNewline(value, i);
      StepStaysTidy(p, lines[i]);
      StepWrites(p, lines[i]);
      OutputIsBlankOnlyAtTheStart(p);
      p := Step(p, lines[i]);
      if trimmed == [] {
        if !blankSeen && Trim(output) != [] {
          output := output + "\n";
          output := output + "\n";
          blankSeen := true;
        }
      } else {
        var isNew := trimmed !in seenLines;
        seenLines := seenLines + {trimmed};
        if isNew || ByteLen(trimmed) <= LONG_LINE {
          output := output + trimmed;
          output := output + "\n";
          blankSeen := false;
        }
      }
    }
    return Trim(output);
  }

  lemma StepWrites(p: Progress, line: string)
    ensures var text, next := Trim(line), Step(p, line);
            if text == [] then
              if p.paras == [] || p.blank then next.paras == p.paras && next.blank == p.blank
              else next == Progress(p.paras, true) && Written(next) == Written(p) + "\n" + "\n"
            else if ByteLen(text) > LONG_LINE && HasText(p.paras, text) then next == p
            else
              && !next.blank && Written(next) == Written(p) + text + "\n"
              && forall t :: HasText(next.paras, t) <==> HasText(p.paras, t) || t == text
  {
    hide Trim, Render, RenderOne, HasText;
    RenderAppend(p.paras, Para(p.blank, Trim(line)));
    RenderOneWrites(Render(p.paras), Para(p.blank, Trim(line)));
    Assoc(Render(p.paras), "\n", "\n");
    AppendedText(p.paras, Para(p.blank, Trim(line)));
  }

  lemma NothingKept()
    ensures Tidy([]) && Written(Progress([], false)) == [] && forall text :: !HasText([], text)
  {
  }

  lemma AppendedText(paras: seq<Para>, last: Para)
    ensures forall text :: HasText(paras + [last], text) <==> HasText(paras, text) || text == last.text
  {
    var longer := paras + [last];
    assert longer[|paras|] == last;
    forall text
      ensures HasText(longer, text) <==> HasText(paras, text) || text == last.text
    {
      if HasText(paras, text) {
        var i :| 0 <= i < |paras| && paras[i].text == text;
        assert longer[i] == paras[i];
      }
    }
  }

  // ----- What is kept is tidy

  predicate Trimmed(text: string) {
    text != [] && !IsWhitespace(text[0]) && !IsWhitespace(text[|text| - 1]) && '\n' !in text
  }

  /** Kept lines are trimmed, the first has no gap before it, and a long one does not repeat an earlier one. */
  ghost predicate Tidy(paras: seq<Para>) {
    && (paras != [] ==> !paras[0].gap)
    && (forall i :: 0 <= i < |paras| ==> Trimmed(paras[i].text))
    && forall i, j :: 0 <= i < j < |paras| && Long(paras[j].text) ==> paras[i].text != paras[j].text
  }

  lemma {:induction false} LinesHaveNoNewline(s: string, i: nat)
    requires i < |Lines(s)|
    ensures '\n' !in Lines(s)[i]
    decreases |s|
  {
    var line := Before(s, '\n');
    if |line| < |s| && i > 0 {
      LinesHaveNoNewline(s[|line| + 1..], i - 1);
    }
  }

  lemma TrimIsPart(s: string, c: char)
    requires c in Trim(s)
    ensures c in s
  {
  }

  lemma StepStaysTidy(p: Progress, line: string)
    requires Tidy(p.paras) && (p.paras == [] ==> !p.blank) && '\n' !in line
    ensures Tidy(Step(p, line).paras)
    ensures Step(p, line).paras == [] ==> !Step(p, line).blank
  {
    hide Trim, Long;
    var text := Trim(line);
    if '\n' in text {
      TrimIsPart(line, '\n');
    }
    if text != [] && !(Long(text) && HasText(p.paras, text)) {
      TidyAppend(p.paras, Para(p.blank, text));
    }
  }

  lemma TidyAppend(paras: seq<Para>, last: Para)
    requires Tidy(paras) && Trimmed(last.text) && (paras == [] ==> !last.gap) &&
        !(Long(last.text) && HasText(paras, last.text))
    ensures Tidy(paras + [last])
  {
    hide Long, Trimmed;
    var longer := paras + [last];
    assert forall i :: 0 <= i < |paras| ==> longer[i] == paras[i];
  }

  lemma {:induction false} ReadStaysTidy(p: Progress, lines: seq<string>)
    requires Tidy(p.paras) && (p.paras == [] ==> !p.blank)
    requires forall i :: 0 <= i < |lines| ==> '\n' !in lines[i]
    ensures Tidy(Read(p, lines).paras) && (Read(p, lines).paras == [] ==> !Read(p, lines).blank)
    decreases |lines|
  {
    hide Tidy, Step;
    if lines != [] {
      StepStaysTidy(p, lines[0]);
      ReadStaysTidy(Step(p, lines[0]), lines[1..]);
    }
  }

  function Kept(value: string): Progress { Read(Progress([], false), Lines(value)) }

  lemma KeptIsTidy(value: string)
    ensures Tidy(Kept(value).paras) && (Kept(value).paras == [] ==> !Kept(value).blank)
  {
    forall i | 0 <= i < |Lines(value)|
      ensures '\n' !in Lines(value)[i]
    {
      LinesHaveNoNewline(value, i);
    }
    ReadStaysTidy(Progress([], false), Lines(value));
  }

  // ----- The result, read again

  /** The lines that write one paragraph. */
  function LinesOf(para: Para): seq<string> { (if para.gap then ["", ""] else []) + [para.text] }

  function Flat(paras: seq<Para>): seq<string> {
    if paras == [] then [] else LinesOf(paras[0]) + Flat(paras[1..])
  }

  lemma TrimEndOfGap(s: string, gap: string)
    requires s != [] && !IsWhitespace(s[|s| - 1]) && AllWhitespace(gap)
    ensures TrimEnd(s + gap) == s
    decreases |gap|
  {
    if gap == [] {
      assert s + gap == s;
    } else {
      assert (s + gap)[..|s + gap| - 1] == s + gap[..|gap| - 1];
      TrimEndOfGap(s, gap[..|gap| - 1]);
    }
  }

  lemma TrimTail(s: string, tail: string)
    requires Framed(s) && AllWhitespace(tail)
    ensures Trim(s + tail) == s
  {
    assert (s + tail)[0] == s[0];
    TrimEndOfGap(s, tail);
  }

  predicate Framed(s: string) { s != [] && !IsWhitespace(s[0]) && !IsWhitespace(s[|s| - 1]) }

  /** A rendering starts and ends with the text of a kept line, and then one newline. */
  lemma RenderShape(paras: seq<Para>) returns (body: string)
    requires Tidy(paras) && paras != []
    ensures Framed(body) && Render(paras) == body + "\n"
  {
    var front, last := paras[..|paras| - 1], paras[|paras| - 1];
    assert paras == front + [last];
    RenderAppend(front, last);
    RenderOneWrites(Render(front), last);
    body := Render(front) + Gap(last.gap) + last.text;
    assert Trimmed(last.text) && Trimmed(paras[0].text);
    assert body[|body| - 1] == last.text[|last.text| - 1];
    if front != [] {
      assert front[0] == paras[0];
      assert Render(front)[0] == paras[0].text[0];
    }
  }

  lemma TextHasNoCr(text: string)
    requires Trimmed(text)
    ensures WithoutCr(text) == text
  {
  }

  lemma {:induction false} LinesOfRender(paras: seq<Para>)
    requires forall i :: 0 <= i < |paras| ==> Trimmed(paras[i].text)
    ensures Lines(Render(paras)) == Flat(paras)
  {
    hide Trimmed, WithoutCr, Lines;
    if paras != [] {
      var text, rest := paras[0].text, Render(paras[1..]);
      LinesOfRender(paras[1..]);
      LinesOfPara(paras[0].gap, text, rest);
    } else {
      assert Lines([]) == [] by { NoLines(); }
    }
  }

  lemma NoLines()
    ensures Lines([]) == []
  {
  }

  lemma LinesOfPara(gap: bool, text: string, rest: string)
    requires Trimmed(text)
    ensures Lines(Gap(gap) + text + "\n" + rest) == LinesOf(Para(gap, text)) + Lines(rest)
  {
    hide Lines;
    var line := text + "\n" + rest;
    TextHasNoCr(text);
    FirstLine(text, rest);
    FirstLine("", line);
    FirstLine("", "\n" + line);
    assert gap ==> Gap(gap) + text + "\n" + rest == "" + "\n" + ("\n" + line);
    assert "" + "\n" + line == "\n" + line;
    assert !gap ==> Gap(gap) + text + "\n" + rest == line;
  }

  lemma {:induction false} ReadAppend(p: Progress, a: seq<string>, b: seq<string>)
    ensures Read(p, a + b) == Read(Read(p, a), b)
    decreases |a|
  {
    if a == [] {
      assert a + b == b;
    } else {
      assert (a + b)[1..] == a[1..] + b;
      ReadAppend(Step(p, a[0]), a[1..], b);
    }
  }

  lemma BlankStep(p: Progress)
    requires p.paras != []
    ensures Step(p, "") == Progress(p.paras, true)
  {
  }

  lemma TextStep(p: Progress, text: string)
    requires Trimmed(text) && !(Long(text) && HasText(p.paras, text))
    ensures Step(p, text) == Progress(p.paras + [Para(p.blank, text)], false)
  {
    TrimOfTrimmed(text);
  }

  lemma ReadTwo(p: Progress, a: string, b: string)
    ensures Read(p, [a, b]) == Step(Step(p, a), b)
  {
    assert [a, b][1..] == [b] && [b][1..] == [];
    assert Read(Step(p, a), [b]) == Read(Step(Step(p, a), b), []);
  }

  lemma ReadOne(p: Progress, a: string)
    ensures Read(p, [a]) == Step(p, a)
  {
    assert [a][1..] == [];
    assert Read(Step(p, a), []) == Step(p, a);
  }

  /** Reading the lines of one tidy paragraph adds it. */
  lemma ReadPara(done: seq<Para>, next: Para)
    requires Trimmed(next.text) && (next.gap ==> done != []) && !(Long(next.text) && HasText(done, next.text))
    ensures Read(Progress(done, false), LinesOf(next)) == Progress(done + [next], false)
  {
    hide Step, Long, Read, Trimmed, HasText;
    var p, q := Progress(done, false), Progress(done, next.gap);
    if next.gap {
      BlankStep(p);
      BlankStep(q);
      ReadTwo(p, "", "");
      ReadAppend(p, ["", ""], [next.text]);
    } else {
      assert LinesOf(next) == [next.text];
    }
    ReadOne(q, next.text);
    TextStep(q, next.text);
  }

  lemma TidyNext(done: seq<Para>, rest: seq<Para>)
    requires Tidy(done + rest) && rest != []
    ensures Trimmed(rest[0].text) && (rest[0].gap ==> done != []) &&
        !(Long(rest[0].text) && HasText(done, rest[0].text))
  {
    hide Trimmed, Long;
    assert (done + rest)[|done|] == rest[0];
    assert forall i :: 0 <= i < |done| ==> (done + rest)[i] == done[i];
  }

  /** Reading the lines of tidy paragraphs gives those paragraphs back. */
  lemma {:induction false} ReadFlat(done: seq<Para>, rest: seq<Para>)
    requires Tidy(done + rest)
    ensures Read(Progress(done, false), Flat(rest)) == Progress(done + rest, false)
    decreases |rest|
  {
    hide Step, LinesOf, Tidy;
    if rest == [] {
      assert done + rest == done;
    } else {
      hide Read;
      TidyNext(done, rest);
      ReadPara(done, rest[0]);
      ReadAppend(Progress(done, false), LinesOf(rest[0]), Flat(rest[1..]));
      assert done + rest == (done + [rest[0]]) + rest[1..];
      ReadFlat(done + [rest[0]], rest[1..]);
    }
  }

  lemma NormalizedShape(value: string)
    ensures Kept(value).paras == [] ==> Normalized(value) == []
    ensures Kept(value).paras != [] ==>
        Framed(Normalized(value)) && Render(Kept(value).paras) == Normalized(value) + "\n"
  {
    hide Trim, Tidy;
    var p := Kept(value);
    KeptIsTidy(value);
    if p.paras != [] {
      var body := RenderShape(p.paras);
      var tail := "\n" + Gap(p.blank);
      assert Written(p) == body + tail;
      TrimTail(body, tail);
    } else {
      TrimOfTrimmed([]);
    }
  }

  /** The lines of the result are those that write its paragraphs. */
  lemma LinesOfNormalized(value: string)
    ensures Lines(Normalized(value)) == Flat(Kept(value).paras)
  {
    hide Trim, Normalized, Read, Step;
    var paras, out := Kept(value).paras, Normalized(value);
    NormalizedShape(value);
    KeptIsTidy(value);
    if paras != [] {
      hide Lines;
      LinesOfRender(paras);
      LastNewline(out);
    }
  }

  /** Reading the result again finds exactly the lines and gaps that were kept. */
  lemma RereadGivesTheSame(value: string)
    ensures Kept(Normalized(value)) == Progress(Kept(value).paras, false)
  {
    hide Trim, Normalized, Read, Lines, Flat, Tidy;
    var paras := Kept(value).paras;
    LinesOfNormalized(value);
    KeptIsTidy(value);
    assert [] + paras == paras;
    ReadFlat([], paras);
  }

  /** normalize_markdown is idempotent on every string. */
  lemma NormalizingIsIdempotent(value: string)
    ensures Normalized(Normalized(value)) == Normalized(value)
  {
    hide Trim, Normalized, Render, Read;
    NormalizedShape(value);
    NormalizedShape(Normalized(value));
    RereadGivesTheSame(value);
    var once, twice := Normalized(value), Normalized(Normalized(value));
    if Kept(value).paras != [] {
      assert (once + "\n")[..|once|] == once && (twice + "\n")[..|twice|] == twice;
    }
  }

  /** No line of the result longer than 80 bytes occurs twice. */
  lemma LongLinesAreDistinct(value: string, i: nat, j: nat)
    requires i < j < |Lines(Normalized(value))| && Lines(Normalized(value))[i] == Lines(Normalized(value))[j]
    ensures ByteLen(Lines(Normalized(value))[i]) <= 80
  {
    hide Trim, Normalized, Read, Lines, Flat;
    LinesOfNormalized(value);
    KeptIsTidy(value);
    FlatRepeats(Kept(value).paras, i, j);
  }

  /** A line that occurs twice among the flattened lines is blank, or the text of two paragraphs. */
  lemma {:induction false} FlatRepeats(paras: seq<Para>, i: nat, j: nat)
    requires i < j < |Flat(paras)| && Flat(paras)[i] == Flat(paras)[j]
    requires forall a, b :: 0 <= a < b < |paras| && Long(paras[b].text) ==> paras[a].text != paras[b].text
    ensures ByteLen(Flat(paras)[i]) <= LONG_LINE
    decreases |paras|
  {
    var skip := if paras[0].gap then 2 else 0;
    var rest := Flat(paras[1..]);
    if i > skip {
      assert Flat(paras)[i] == rest[i - skip - 1] && Flat(paras)[j] == rest[j - skip - 1];
      FlatRepeats(paras[1..], i - skip - 1, j - skip - 1);
    } else if i == skip {
      assert Flat(paras)[j] == rest[j - skip - 1];
      FlatLine(paras[1..], j - skip - 1);
    }
  }

  lemma {:induction false} FlatLine(paras: seq<Para>, i: nat)
    requires i < |Flat(paras)|
    ensures Flat(paras)[i] == "" || HasText(paras, Flat(paras)[i])
  {
    var skip := if paras[0].gap then 2 else 0;
    if i > skip {
      FlatLine(paras[1..], i - skip - 1);
      var rest := paras[1..];
      if HasText(rest, Flat(rest)[i - skip - 1]) {
        var k :| 0 <= k < |rest| && rest[k].text == Flat(rest)[i - skip - 1];
        assert paras[k + 1] == rest[k];
      }
    } else if i == skip {
      assert paras[0].text == Flat(paras)[i];
    }
  }

  // ----- What is kept, in terms of the input's lines

  /** Line k is dropped: it is blank, or a long line whose text an earlier line already had. */
  ghost predicate Dropped(lines: seq<string>, k: nat)
    requires k < |lines|
  {
    var text := Trim(lines[k]);
    text == [] || (ByteLen(text) > 80 && exists j :: 0 <= j < k && Trim(lines[j]) == text)
  }

  predicate BlankBetween(lines: seq<string>, from: int, to: int) {
    exists k :: 0 <= k < |lines| && from < k < to && Trim(lines[k]) == []
  }

  /**
   `at[i]` is the input line of paragraph i: every line that is not dropped, in order and trimmed,
   with a gap just where a blank line came after the previous one.
   */
  ghost predicate Traces(lines: seq<string>, n: nat, p: Progress, at: seq<nat>)
    requires n <= |lines|
  {
    && |at| == |p.paras|
    && (forall i :: 0 <= i < |at| ==> at[i] < n && p.paras[i].text == Trim(lines[at[i]]) && !Dropped(lines, at[i]))
    && (forall i, j :: 0 <= i < j < |at| ==> at[i] < at[j])
    && (forall k :: 0 <= k < n && !Dropped(lines, k) ==> k in at)
    && (forall i :: 0 < i < |at| ==> (p.paras[i].gap <==> BlankBetween(lines, at[i - 1], at[i])))
    && (p.blank <==> at != [] && BlankBetween(lines, at[|at| - 1], n))
  }

  ghost predicate TextsSeen(lines: seq<string>, n: nat, p: Progress)
    requires n <= |lines|
  {
    && (forall k :: 0 <= k < n && Trim(lines[k]) != [] ==> HasText(p.paras, Trim(lines[k])))
    && forall text :: HasText(p.paras, text) ==> exists k :: 0 <= k < n && Trim(lines[k]) == text
  }

  lemma BlankUpTo(lines: seq<string>, from: int, n: nat)
    requires n < |lines| && from < n
    ensures BlankBetween(lines, from, n + 1) <==> BlankBetween(lines, from, n) || Trim(lines[n]) == []
  {
    hide Trim;
    if Trim(lines[n]) == [] {
      assert from < n < n + 1;
    }
  }

  lemma TraceStep(lines: seq<string>, n: nat, p: Progress, at: seq<nat>) returns (next: seq<nat>)
    requires n < |lines| && Traces(lines, n, p, at) && TextsSeen(lines, n, p)
    ensures Traces(lines, n + 1, Step(p, lines[n]), next)
  {
    hide Trim, Long, HasText, BlankBetween, Dropped, TextsSeen, Traces;
    var text := Trim(lines[n]);
    DroppedAsCoded(lines, n, p);
    if text == [] || (Long(text) && HasText(p.paras, text)) {
      next := at;
      TraceDropped(lines, n, p, at);
    } else {
      next := at + [n];
      TraceKept(lines, n, p, at);
    }
  }

  lemma TraceDropped(lines: seq<string>, n: nat, p: Progress, at: seq<nat>)
    requires n < |lines| && Traces(lines, n, p, at) && Dropped(lines, n)
    ensures Traces(lines, n + 1, Progress(p.paras, p.blank || (p.paras != [] && Trim(lines[n]) == [])), at)
  {
    hide Trim, BlankBetween, Dropped;
    if at != [] {
      BlankUpTo(lines, at[|at| - 1], n);
    }
  }

  lemma TraceKept(lines: seq<string>, n: nat, p: Progress, at: seq<nat>)
    requires n < |lines| && Traces(lines, n, p, at) && !Dropped(lines, n)
    ensures Traces(lines, n + 1, Progress(p.paras + [Para(p.blank, Trim(lines[n]))], false), at + [n])
  {
    hide Trim, BlankBetween, Dropped;
    NoBlankAfter(lines, n);
    assert (at + [n])[|at|] == n;
  }

  lemma NoBlankAfter(lines: seq<string>, n: nat)
    requires n < |lines|
    ensures !BlankBetween(lines, n, n + 1)
  {
  }

  /** The set of lines seen so far decides just what the definition of a dropped line says. */
  lemma DroppedAsCoded(lines: seq<string>, n: nat, p: Progress)
    requires n < |lines| && TextsSeen(lines, n, p)
    ensures Dropped(lines, n) <==> Trim(lines[n]) == [] || (Long(Trim(lines[n])) && HasText(p.paras, Trim(lines[n])))
  {
    hide Trim, ByteLen, HasText;
  }

  lemma TextsStep(lines: seq<string>, n: nat, p: Progress)
    requires n < |lines| && TextsSeen(lines, n, p)
    ensures TextsSeen(lines, n + 1, Step(p, lines[n]))
  {
    hide Trim, ByteLen, HasText;
    AppendedText(p.paras, Para(p.blank, Trim(lines[n])));
  }

  /** The kept lines are exactly the input's lines that are not dropped, in order, with their gaps. */
  lemma KeptLinesAreTheInputs(value: string) returns (at: seq<nat>)
    ensures Traces(Lines(value), |Lines(value)|, Kept(value), at)
  {
    hide Step, Trim, Lines, Traces, TextsSeen;
    var lines, p := Lines(value), Progress([], false);
    at := [];
    NothingTraced(lines);
    for n := 0 to |lines|
      invariant Kept(value) == Read(p, lines[n..])
      invariant Traces(lines, n, p, at) && TextsSeen(lines, n, p)
    {
      assert lines[n..][0] == lines[n] && lines[n..][1..] == lines[n + 1..];
      at := TraceStep(lines, n, p, at);
      TextsStep(lines, n, p);
      p := Step(p, lines[n]);
    }
  }

  lemma NothingTraced(lines: seq<string>)
    ensures Traces(lines, 0, Progress([], false), []) && TextsSeen(lines, 0, Progress([], false))
  {
  }
}
