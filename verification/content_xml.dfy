/**
 * src/utils/response_transformer.py, content-inlined rendering
 * (`_build_xml_with_content`, `_build_file_xml_with_content`,
 * `_format_content_with_line_numbers`): one element per file, holding the
 * escaped texts of its hits in start-line order, with optional line numbers.
 */
module ContentXml {
  import opened Wrappers
  import opened Strings
  import opened Markup
  import opened ResultPaths
  import opened FileGrouping
  import opened ReferenceXml
  import opened StartLineSort

  // ---------------------------------------------------------------------
  // Body formatting
  // ---------------------------------------------------------------------

  /** `f"   {n}|{line}"`. */
  function NumberedLine(n: int, line: string): string {
    "   " + IntToDecimal(n) + "|" + line
  }

  /** `f"   {line}"`. */
  function IndentedLine(line: string): string {
    "   " + line
  }

  /** The lines numbered consecutively from `first`. */
  function NumberedLines(lines: seq<string>, first: int): (r: seq<string>)
    ensures |r| == |lines|
    ensures forall i :: 0 <= i < |lines| ==> r[i] == NumberedLine(first + i, lines[i])
  {
    seq(|lines|, i requires 0 <= i < |lines| => NumberedLine(first + i, lines[i]))
  }

  /** Every line indented by three spaces. */
  function IndentedLines(lines: seq<string>): (r: seq<string>)
    ensures |r| == |lines|
    ensures forall i :: 0 <= i < |lines| ==> r[i] == IndentedLine(lines[i])
  {
    seq(|lines|, i requires 0 <= i < |lines| => IndentedLine(lines[i]))
  }

  /** Line numbers are used only when a start is known and the text has more than one line. */
  predicate Numbered(content: string, start: Option<int>) {
    start.Some? && '\n' in content
  }

  /** What `_format_content_with_line_numbers(content, start)` returns. */
  function FormattedContent(content: string, start: Option<int>): string {
    var lines := SplitLines(Escape(content));
    if Numbered(content, start) then Join(NumberedLines(lines, start.value), "\n")
    else Join(IndentedLines(lines), "\n")
  }

  /** `_format_content_with_line_numbers(content, start_line)`. */
  method FormatContentWithLineNumbers(content: string, startLine: Option<int>) returns (formatted: string)
    ensures formatted == FormattedContent(content, startLine)
  {
    var escapedContent := Escape(content);
    if startLine.Some? && '\n' in content {
      var lines := SplitLines(escapedContent);
      var numberedLines: seq<string> := [];
      var currentLine := startLine.value;
      for i := 0 to |lines|
        invariant currentLine == startLine.value + i
        invariant numberedLines == NumberedLines(lines[..i], startLine.value)
      {
        numberedLines := numberedLines + [NumberedLine(currentLine, lines[i])];
        currentLine := currentLine + 1;
        NumberedLinesSnoc(lines, i, startLine.value);
      }
      Whole(lines);
      formatted := Join(numberedLines, "\n");
    } else {
      var lines := SplitLines(escapedContent);
      formatted := Join(IndentedLines(lines), "\n");
    }
  }

  lemma NumberedLinesSnoc(lines: seq<string>, i: nat, first: int)
    requires i < |lines|
    ensures NumberedLines(lines[..i + 1], first) == NumberedLines(lines[..i], first) + [NumberedLine(first + i, lines[i])]
  {
    TakeOneMore(lines, i);
  }

  /** Numbered lines split apart again as they were joined. */
  lemma NumberedLinesSplit(lines: seq<string>, first: int)
    requires |lines| >= 1 && forall i :: 0 <= i < |lines| ==> NoNewline(lines[i])
    ensures SplitLines(Join(NumberedLines(lines, first), "\n")) == NumberedLines(lines, first)
  {
    var out := NumberedLines(lines, first);
    forall i | 0 <= i < |out| ensures NoNewline(out[i]) {
      var n := IntToDecimal(first + i);
      NoNewlineConcat("   ", n);
      NoNewlineConcat("   " + n, "|");
      NoNewlineConcat("   " + n + "|", lines[i]);
    }
    SplitLinesJoin(out);
  }

  /** Indented lines split apart again as they were joined. */
  lemma IndentedLinesSplit(lines: seq<string>)
    requires |lines| >= 1 && forall i :: 0 <= i < |lines| ==> NoNewline(lines[i])
    ensures SplitLines(Join(IndentedLines(lines), "\n")) == IndentedLines(lines)
  {
    var out := IndentedLines(lines);
    forall i | 0 <= i < |out| ensures NoNewline(out[i]) {
      NoNewlineConcat("   ", lines[i]);
    }
    SplitLinesJoin(out);
  }

  /**
   * The body keeps one output line per input line: output line `i` is input
   * line `i`, escaped, behind its prefix. The prefix carries the number
   * `start + i` when a start is given and the text has two or more lines, and
   * is three spaces otherwise.
   */
  lemma FormattedLines(content: string, start: Option<int>)
    ensures |SplitLines(FormattedContent(content, start))| == |SplitLines(content)|
    ensures start.Some? && |SplitLines(content)| >= 2 ==>
      forall i :: 0 <= i < |SplitLines(content)| ==>
        SplitLines(FormattedContent(content, start))[i] == NumberedLine(start.value + i, Escape(SplitLines(content)[i]))
    ensures !(start.Some? && |SplitLines(content)| >= 2) ==>
      forall i :: 0 <= i < |SplitLines(content)| ==>
        SplitLines(FormattedContent(content, start))[i] == IndentedLine(Escape(SplitLines(content)[i]))
  {
    var escaped := SplitLines(Escape(content));
    EscapeKeepsLines(content);
    SplitLinesHaveNoNewline(Escape(content));
    SeveralLinesIffNewline(content);
    if Numbered(content, start) {
      NumberedLinesSplit(escaped, start.value);
    } else {
      IndentedLinesSplit(escaped);
    }
  }

  lemma NoNewlineConcat(a: string, b: string)
    requires NoNewline(a) && NoNewline(b)
    ensures NoNewline(a + b)
  {
    forall k | 0 <= k < |a + b| ensures (a + b)[k] != '\n' {
      if k >= |a| { assert (a + b)[k] == b[k - |a|]; }
    }
  }

  /** Each output line reads back, behind its prefix, to the text of the input line. */
  lemma FormattedLinesReadBack(content: string, start: Option<int>, i: nat)
    requires i < |SplitLines(content)|
    ensures i < |SplitLines(FormattedContent(content, start))|
    ensures var out := SplitLines(FormattedContent(content, start))[i];
      var prefix := if start.Some? && |SplitLines(content)| >= 2 then 4 + |IntToDecimal(start.value + i)| else 3;
      prefix <= |out| && Unescape(out[prefix..]) == SplitLines(content)[i]
  {
    FormattedLines(content, start);
    var line := SplitLines(content)[i];
    var e := Escape(line);
    UnescapeEscape(line);
    var out := SplitLines(FormattedContent(content, start))[i];
    if start.Some? && |SplitLines(content)| >= 2 {
      var p := "   " + IntToDecimal(start.value + i) + "|";
      assert out == p + e;
      assert out[|p|..] == e;
    } else {
      assert out == "   " + e;
      assert out[3..] == e;
    }
  }

  // ---------------------------------------------------------------------
  // One file
  // ---------------------------------------------------------------------

  /** What one hit adds to its file's text: its content if non-empty, else its snippet if non-empty. */
  function TextOf(info: Info): (t: seq<string>)
    ensures |t| <= 1
  {
    if Truthy(info.content) then [info.content.value]
    else if Truthy(info.snippet) then [info.snippet.value]
    else []
  }

  /** `content_parts` after the loop over `hits`. */
  function Texts(hits: seq<Info>): seq<string>
    decreases |hits|
  {
    if hits == [] then [] else Texts(hits[..|hits| - 1]) + TextOf(hits[|hits| - 1])
  }

  /** The line numbers one hit adds: its start line, then its end line, each when present. */
  function LinesOf(info: Info): seq<int> {
    (if info.startLine.Some? then [info.startLine.value] else [])
    + (if info.endLine.Some? then [info.endLine.value] else [])
  }

  /** `all_lines` after the loop over `hits`. */
  function CollectedLines(hits: seq<Info>): seq<int>
    decreases |hits|
  {
    if hits == [] then [] else CollectedLines(hits[..|hits| - 1]) + LinesOf(hits[|hits| - 1])
  }

  /** `min(s)`. */
  function Min(s: seq<int>): (m: int)
    requires s != []
    ensures m in s && forall x :: x in s ==> m <= x
    decreases |s|
  {
    if |s| == 1 then s[0]
    else
      var init := s[..|s| - 1];
      var m := Min(init);
      assert s == init + [s[|s| - 1]];
      if s[|s| - 1] < m then s[|s| - 1] else m
  }

  /** `max(s)`. */
  function Max(s: seq<int>): (m: int)
    requires s != []
    ensures m in s && forall x :: x in s ==> x <= m
    decreases |s|
  {
    if |s| == 1 then s[0]
    else
      var init := s[..|s| - 1];
      var m := Max(init);
      assert s == init + [s[|s| - 1]];
      if s[|s| - 1] > m then s[|s| - 1] else m
  }

  /** The attributes of a file element: the path, then the line range when any line is known. */
  function FileAttributes(path: string, allLines: seq<int>): seq<Attribute> {
    if allLines != [] then
      [Attribute(Path, Escape(path)), Attribute(StartLine, IntToDecimal(Min(allLines))), Attribute(EndLine, IntToDecimal(Max(allLines)))]
    else [Attribute(Path, Escape(path))]
  }

  /** The opening tag of a file element. */
  function OpeningElement(attrs: seq<Attribute>): string {
    "  <search_result " + Join(Rendered(attrs), " ") + ">"
  }

  const ClosingElement: string := "  </search_result>"

  /**
   * The first line number of the body: the first collected line in sorted
   * order, used only when the group's first hit in arrival order has a start line.
   */
  function NumberingStart(hits: seq<Info>): Option<int> {
    var allLines := CollectedLines(SortByStart(hits));
    if allLines != [] && hits[0].startLine.Some? then Some(allLines[0]) else None
  }

  /** What `_build_file_xml_with_content(path, hits)` returns. */
  function FileElement(path: string, hits: seq<Info>): seq<string> {
    var sorted := SortByStart(hits);
    var texts := Texts(sorted);
    if texts == [] then []
    else
      [OpeningElement(FileAttributes(path, CollectedLines(sorted))),
       FormattedContent(Join(texts, "\n"), NumberingStart(hits)),
       ClosingElement]
  }

  /** The loop of `_build_file_xml_with_content` over the sorted hits: their texts and their known lines. */
  method CollectHits(sorted: seq<Info>) returns (contentParts: seq<string>, allLines: seq<int>, hasContent: bool)
    ensures contentParts == Texts(sorted) && allLines == CollectedLines(sorted)
    ensures hasContent <==> contentParts != []
  {
    contentParts, allLines, hasContent := [], [], false;
    for i := 0 to |sorted|
      invariant contentParts == Texts(sorted[..i])
      invariant allLines == CollectedLines(sorted[..i])
      invariant hasContent <==> contentParts != []
    {
      var result := sorted[i];
      ghost var texts0, lines0 := contentParts, allLines;
      if Truthy(result.content) {
        contentParts := contentParts + [result.content.value];
        hasContent := true;
      } else if Truthy(result.snippet) {
        contentParts := contentParts + [result.snippet.value];
        hasContent := true;
      }
      if result.startLine.Some? {
        allLines := allLines + [result.startLine.value];
      }
      if result.endLine.Some? {
        allLines := allLines + [result.endLine.value];
      }
      CollectStep(sorted, i, texts0, contentParts, lines0, allLines);
    }
    Whole(sorted);
  }

  /** `_build_file_xml_with_content(path, results)`. */
  method BuildFileXmlWithContent(path: string, results: seq<Info>) returns (xmlParts: seq<string>)
    ensures xmlParts == FileElement(path, results)
  {
    var sorted := SortByStart(results);
    var contentParts, allLines, hasContent := CollectHits(sorted);
    if !hasContent {
      assert FileElement(path, results) == [];
      return [];
    }
    SortedSameHits(results);
    assert sorted[0] in results;
    var attrs: seq<Attribute>;
    if allLines != [] {
      attrs := [Attribute(Path, Escape(path)), Attribute(StartLine, IntToDecimal(Min(allLines))), Attribute(EndLine, IntToDecimal(Max(allLines)))];
    } else {
      attrs := [Attribute(Path, Escape(path))];
    }
    assert attrs == FileAttributes(path, CollectedLines(sorted));
    xmlParts := [OpeningElement(attrs)];
    var combinedContent := Join(contentParts, "\n");
    var start := if allLines != [] && results[0].startLine.Some? then Some(allLines[0]) else None;
    assert start == NumberingStart(results);
    var formattedContent := FormatContentWithLineNumbers(combinedContent, start);
    xmlParts := xmlParts + [formattedContent];
    xmlParts := xmlParts + [ClosingElement];
    AppendThree(OpeningElement(attrs), formattedContent, ClosingElement);
    FileElementWithText(path, results, contentParts, attrs, start);
  }

  /** `FileElement` when the group has text, in terms of the loop's results. */
  lemma FileElementWithText(path: string, hits: seq<Info>, texts: seq<string>, attrs: seq<Attribute>, start: Option<int>)
    requires texts == Texts(SortByStart(hits)) && texts != []
    requires attrs == FileAttributes(path, CollectedLines(SortByStart(hits)))
    requires start == NumberingStart(hits)
    ensures FileElement(path, hits) == [OpeningElement(attrs), FormattedContent(Join(texts, "\n"), start), ClosingElement]
  {
  }

  /** One step of the collecting loop, stated on the specification functions. */
  lemma CollectStep(s: seq<Info>, i: nat, texts0: seq<string>, texts1: seq<string>, lines0: seq<int>, lines1: seq<int>)
    requires i < |s|
    requires texts0 == Texts(s[..i]) && lines0 == CollectedLines(s[..i])
    requires texts1 == texts0 + TextOf(s[i])
    requires lines1 == lines0 + LinesOf(s[i])
    ensures texts1 == Texts(s[..i + 1]) && lines1 == CollectedLines(s[..i + 1])
  {
    TakeOneMore(s, i);
  }

  lemma {:induction false} TextsEmpty(hits: seq<Info>)
    ensures Texts(hits) == [] <==> forall i :: 0 <= i < |hits| ==> TextOf(hits[i]) == []
    decreases |hits|
  {
    if hits != [] {
      TextsEmpty(hits[..|hits| - 1]);
    }
  }

  lemma CollectedLinesMembers(hits: seq<Info>)
    ensures forall x :: x in CollectedLines(hits) <==> exists i :: 0 <= i < |hits| && x in LinesOf(hits[i])
  {
    forall x ensures x in CollectedLines(hits) <==> exists i :: 0 <= i < |hits| && x in LinesOf(hits[i]) {
      if x in CollectedLines(hits) {
        CollectedLineSource(hits, x);
      }
      if exists i :: 0 <= i < |hits| && x in LinesOf(hits[i]) {
        var i :| 0 <= i < |hits| && x in LinesOf(hits[i]);
        CollectedLineKept(hits, i, x);
      }
    }
  }

  /** Every collected line comes from some hit. */
  lemma {:induction false} CollectedLineSource(hits: seq<Info>, x: int)
    requires x in CollectedLines(hits)
    ensures exists i :: 0 <= i < |hits| && x in LinesOf(hits[i])
    decreases |hits|
  {
    var init := hits[..|hits| - 1];
    if x in CollectedLines(init) {
      CollectedLineSource(init, x);
      var i :| 0 <= i < |init| && x in LinesOf(init[i]);
      assert hits[i] == init[i];
    } else {
      assert x in LinesOf(hits[|hits| - 1]);
    }
  }

  /** Every line of every hit is collected. */
  lemma {:induction false} CollectedLineKept(hits: seq<Info>, i: nat, x: int)
    requires i < |hits| && x in LinesOf(hits[i])
    ensures x in CollectedLines(hits)
    decreases |hits|
  {
    var init := hits[..|hits| - 1];
    if i < |init| {
      assert init[i] == hits[i];
      CollectedLineKept(init, i, x);
    }
  }

  lemma SortedSameHits(hits: seq<Info>)
    ensures forall y :: y in SortByStart(hits) <==> y in hits
  {
    var r := SortByStart(hits);
    forall y ensures y in r <==> y in hits {
      assert y in r <==> y in multiset(r);
      assert y in hits <==> y in multiset(hits);
    }
  }

  /** A file is omitted exactly when none of its hits has text; otherwise it is one opening line, one body, one closing line. */
  lemma FileElementShape(path: string, hits: seq<Info>)
    ensures FileElement(path, hits) == [] <==> forall i :: 0 <= i < |hits| ==> TextOf(hits[i]) == []
    ensures FileElement(path, hits) != [] ==>
      |FileElement(path, hits)| == 3 && FileElement(path, hits)[2] == ClosingElement &&
      FileElement(path, hits)[1] == FormattedContent(Join(Texts(SortByStart(hits)), "\n"), NumberingStart(hits))
  {
    var sorted := SortByStart(hits);
    FileElementUnfold(path, hits);
    TextsEmpty(sorted);
    SortedSameHits(hits);
    NoTextCarriesOver(hits, sorted);
    NoTextCarriesOver(sorted, hits);
  }

  /** The element is empty exactly when the sorted hits give no text, and otherwise has its three parts. */
  lemma FileElementUnfold(path: string, hits: seq<Info>)
    ensures FileElement(path, hits) == [] <==> Texts(SortByStart(hits)) == []
    ensures FileElement(path, hits) != [] ==>
      |FileElement(path, hits)| == 3 && FileElement(path, hits)[2] == ClosingElement &&
      FileElement(path, hits)[1] == FormattedContent(Join(Texts(SortByStart(hits)), "\n"), NumberingStart(hits))
  {
  }

  /** When no hit of `b` has text and every hit of `a` is one of them, no hit of `a` has text. */
  lemma NoTextCarriesOver(a: seq<Info>, b: seq<Info>)
    requires forall y :: y in a ==> y in b
    ensures (forall i :: 0 <= i < |b| ==> TextOf(b[i]) == []) ==> forall i :: 0 <= i < |a| ==> TextOf(a[i]) == []
  {
    if forall i :: 0 <= i < |b| ==> TextOf(b[i]) == [] {
      forall i | 0 <= i < |a| ensures TextOf(a[i]) == [] {
        assert a[i] in b;
      }
    }
  }


  /** Two lists with the same members have the same minimum and maximum. */
  lemma SameMembersSameRange(a: seq<int>, b: seq<int>)
    requires a != [] && forall x :: x in a <==> x in b
    ensures b != [] && Min(a) == Min(b) && Max(a) == Max(b)
  {
    var w := a[0];
    assert w in a;
    assert w in b;
    assert Min(a) in b && Min(b) in a;
    assert Max(a) in b && Max(b) in a;
  }

  /**
   * The line range of a file element spans every line of every hit of the
   * file: `startLine` is the least and `endLine` the greatest, whatever order
   * the hits arrived in. Without any known line, only the path is given.
   */
  lemma FileLineRange(path: string, hits: seq<Info>)
    requires FileElement(path, hits) != []
    ensures CollectedLines(hits) != [] ==>
      FileElement(path, hits)[0] == OpeningElement([Attribute(Path, Escape(path)),
        Attribute(StartLine, IntToDecimal(Min(CollectedLines(hits)))),
        Attribute(EndLine, IntToDecimal(Max(CollectedLines(hits))))])
    ensures CollectedLines(hits) == [] ==>
      FileElement(path, hits)[0] == OpeningElement([Attribute(Path, Escape(path))])
  {
    var a := CollectedLines(hits);
    var b := CollectedLines(SortByStart(hits));
    SortingKeepsLines(hits);
    if b != [] {
      assert b[0] in b;
    }
    if a != [] {
      SameMembersSameRange(a, b);
    }
  }

  /** Sorting the hits changes the order of the collected lines, not which lines they are. */
  lemma SortingKeepsLines(hits: seq<Info>)
    ensures forall x :: x in CollectedLines(hits) <==> x in CollectedLines(SortByStart(hits))
  {
    SortedSameHits(hits);
    LinesCarryOver(hits, SortByStart(hits));
    LinesCarryOver(SortByStart(hits), hits);
  }

  /** Every line of the hits of `a` is a line of `b` when every hit of `a` is a hit of `b`. */
  lemma LinesCarryOver(a: seq<Info>, b: seq<Info>)
    requires forall y :: y in a ==> y in b
    ensures forall x :: x in CollectedLines(a) ==> x in CollectedLines(b)
  {
    CollectedLinesMembers(a);
    CollectedLinesMembers(b);
    forall x | x in CollectedLines(a) ensures x in CollectedLines(b) {
      var i :| 0 <= i < |a| && x in LinesOf(a[i]);
      assert a[i] in b;
      var j :| 0 <= j < |b| && b[j] == a[i];
      assert x in LinesOf(b[j]);
    }
  }

  lemma {:induction false} NoCollectedLines(hits: seq<Info>)
    ensures CollectedLines(hits) == [] <==> forall i :: 0 <= i < |hits| ==> hits[i].startLine.None? && hits[i].endLine.None?
    decreases |hits|
  {
    if hits != [] {
      var init := hits[..|hits| - 1];
      NoCollectedLines(init);
      assert CollectedLines(hits) == CollectedLines(init) + LinesOf(hits[|hits| - 1]);
      assert forall i :: 0 <= i < |init| ==> init[i] == hits[i];
    }
  }

  /** The first collected line belongs to the first hit that has lines. */
  lemma {:induction false} FirstCollectedLine(hits: seq<Info>)
    requires forall i :: 0 <= i < |hits| ==> LinesPaired(hits[i])
    requires CollectedLines(hits) != []
    ensures exists f :: (0 <= f < |hits| && hits[f].startLine.Some? &&
      CollectedLines(hits)[0] == hits[f].startLine.value &&
      (forall i :: 0 <= i < f ==> hits[i].startLine.None?))
    decreases |hits|
  {
    var init := hits[..|hits| - 1];
    var last := hits[|hits| - 1];
    assert CollectedLines(hits) == CollectedLines(init) + LinesOf(last);
    assert forall i :: 0 <= i < |init| ==> init[i] == hits[i];
    if CollectedLines(init) != [] {
      FirstCollectedLine(init);
      var f :| 0 <= f < |init| && init[f].startLine.Some? &&
        CollectedLines(init)[0] == init[f].startLine.value &&
        (forall i :: 0 <= i < f ==> init[i].startLine.None?);
      assert CollectedLines(hits)[0] == CollectedLines(init)[0];
    } else {
      NoCollectedLines(init);
      assert LinesPaired(last);
      assert CollectedLines(hits) == LinesOf(last);
      assert CollectedLines(hits)[0] == last.startLine.value;
    }
  }

  /**
   * When every hit carries both lines or neither, numbering starts at the
   * least start line of the file, and only if the hit that arrived first has
   * a start line.
   */
  lemma NumberingStartIsLeastStart(hits: seq<Info>)
    requires forall i :: 0 <= i < |hits| ==> LinesPaired(hits[i])
    ensures hits != [] && hits[0].startLine.None? ==> NumberingStart(hits).None?
    ensures hits != [] && hits[0].startLine.Some? ==>
      NumberingStart(hits).Some? &&
      (exists k :: 0 <= k < |hits| && hits[k].startLine == NumberingStart(hits)) &&
      forall j :: 0 <= j < |hits| && hits[j].startLine.Some? ==> NumberingStart(hits).value <= hits[j].startLine.value
  {
    if hits != [] && hits[0].startLine.Some? {
      var sorted := SortByStart(hits);
      SortedSameHits(hits);
      SortIsSorted(hits);
      SortedPaired(hits);
      assert hits[0] in sorted;
      StartIsCollected(sorted, hits[0]);
      FirstCollectedLine(sorted);
      var f :| 0 <= f < |sorted| && sorted[f].startLine.Some? &&
        CollectedLines(sorted)[0] == sorted[f].startLine.value &&
        (forall i :: 0 <= i < f ==> sorted[i].startLine.None?);
      LeastStart(sorted, f);
      assert sorted[f] in hits;
      var k :| 0 <= k < |hits| && hits[k] == sorted[f];
      assert hits[k].startLine == NumberingStart(hits);
      forall j | 0 <= j < |hits| && hits[j].startLine.Some?
        ensures sorted[f].startLine.value <= hits[j].startLine.value
      {
        assert hits[j] in sorted;
      }
    }
  }

  /** Sorting keeps every hit, so it keeps every hit's lines paired. */
  lemma SortedPaired(hits: seq<Info>)
    requires forall i :: 0 <= i < |hits| ==> LinesPaired(hits[i])
    ensures forall i :: 0 <= i < |SortByStart(hits)| ==> LinesPaired(SortByStart(hits)[i])
  {
    var sorted := SortByStart(hits);
    SortedSameHits(hits);
    forall i | 0 <= i < |sorted| ensures LinesPaired(sorted[i]) {
      assert sorted[i] in hits;
    }
  }

  /** A start line of any hit is among the collected lines. */
  lemma StartIsCollected(hits: seq<Info>, x: Info)
    requires x in hits && x.startLine.Some?
    ensures CollectedLines(hits) != []
  {
    var z :| 0 <= z < |hits| && hits[z] == x;
    CollectedLinesMembers(hits);
    var v := x.startLine.value;
    assert v in LinesOf(hits[z]);
    assert exists i :: 0 <= i < |hits| && v in LinesOf(hits[i]);
    assert v in CollectedLines(hits);
  }

  /** In sorted order, the first hit with a start line has the least start line. */
  lemma LeastStart(sorted: seq<Info>, f: nat)
    requires Sorted(sorted) && f < |sorted| && sorted[f].startLine.Some?
    requires forall i :: 0 <= i < f ==> sorted[i].startLine.None?
    ensures forall y :: y in sorted && y.startLine.Some? ==> sorted[f].startLine.value <= y.startLine.value
  {
    forall y | y in sorted && y.startLine.Some? ensures sorted[f].startLine.value <= y.startLine.value {
      var p :| 0 <= p < |sorted| && sorted[p] == y;
      if p != f {
        assert f < p;
        assert SortKey(sorted[f]) <= SortKey(sorted[p]);
      }
    }
  }

  // ---------------------------------------------------------------------
  // The document
  // ---------------------------------------------------------------------

  /** The file elements of all groups, group after group. */
  function ContentParts(gs: Groups): seq<string>
    decreases |gs|
  {
    if gs == [] then []
    else
      var g := gs[|gs| - 1];
      ContentParts(gs[..|gs| - 1]) + FileElement(g.0, g.1)
  }

  /** The content-inlined document. */
  function ContentDocument(gs: Groups): string {
    Join([ResultsOpen] + ContentParts(gs) + [ResultsClose], "\n")
  }

  /** `_build_xml_with_content(file_groups)`. */
  method BuildXmlWithContent(fileGroups: Groups) returns (xml: string)
    ensures xml == ContentDocument(fileGroups)
  {
    var xmlParts := [ResultsOpen];
    for i := 0 to |fileGroups|
      invariant xmlParts == [ResultsOpen] + ContentParts(fileGroups[..i])
    {
      var xmlContent := BuildFileXmlWithContent(fileGroups[i].0, fileGroups[i].1);
      ghost var before := xmlParts;
      if xmlContent != [] {
        xmlParts := xmlParts + xmlContent;
      } else {
        AppendEmpty(before);
      }
      ContentPartsSnoc(fileGroups, i);
      AppendAssociates([ResultsOpen], ContentParts(fileGroups[..i]), xmlContent);
    }
    Whole(fileGroups);
    xmlParts := xmlParts + [ResultsClose];
    xml := Join(xmlParts, "\n");
  }

  lemma ContentPartsSnoc(gs: Groups, i: nat)
    requires i < |gs|
    ensures ContentParts(gs[..i + 1]) == ContentParts(gs[..i]) + FileElement(gs[i].0, gs[i].1)
  {
    TakeOneMore(gs, i);
  }

  /** Does any hit of the group have text? */
  predicate HasText(g: (string, seq<Info>)) {
    exists i :: 0 <= i < |g.1| && TextOf(g.1[i]) != []
  }

  /** The paths of the groups that get an element, in group order. */
  function FilesWithText(gs: Groups): seq<string>
    decreases |gs|
  {
    if gs == [] then []
    else FilesWithText(gs[..|gs| - 1]) + (if HasText(gs[|gs| - 1]) then [gs[|gs| - 1].0] else [])
  }

  /** Each group with text yields exactly three parts (opening tag, body, closing tag) and every other group none. */
  lemma {:induction false} ElementCount(gs: Groups)
    ensures |ContentParts(gs)| == 3 * |FilesWithText(gs)|
    decreases |gs|
  {
    if gs != [] {
      var init := gs[..|gs| - 1];
      var g := gs[|gs| - 1];
      ElementCount(init);
      FileElementShape(g.0, g.1);
      assert ContentParts(gs) == ContentParts(init) + FileElement(g.0, g.1);
      assert FilesWithText(gs) == FilesWithText(init) + (if HasText(g) then [g.0] else []);
    }
  }

  /** Every path that gets an element is the path of some group. */
  lemma {:induction false} FilesWithTextArePaths(gs: Groups)
    ensures forall k :: 0 <= k < |FilesWithText(gs)| ==> exists j :: 0 <= j < |gs| && gs[j].0 == FilesWithText(gs)[k]
    decreases |gs|
  {
    if gs != [] {
      var init := gs[..|gs| - 1];
      var g := gs[|gs| - 1];
      FilesWithTextArePaths(init);
      var fs := FilesWithText(gs);
      assert fs == FilesWithText(init) + (if HasText(g) then [g.0] else []);
      forall k | 0 <= k < |fs| ensures exists j :: 0 <= j < |gs| && gs[j].0 == fs[k] {
        if k < |FilesWithText(init)| {
          var j :| 0 <= j < |init| && init[j].0 == FilesWithText(init)[k];
          assert fs[k] == FilesWithText(init)[k];
          assert gs[j] == init[j];
          assert gs[j].0 == fs[k];
        } else {
          assert gs[|gs| - 1].0 == fs[k];
        }
      }
    } else {
      assert FilesWithText(gs) == [];
    }
  }

  /** With distinct group paths, no path gets two elements. */
  lemma {:induction false} OneElementPerFile(gs: Groups)
    requires Distinct(Paths(gs))
    ensures Distinct(FilesWithText(gs))
    decreases |gs|
  {
    if gs != [] {
      var init := gs[..|gs| - 1];
      var g := gs[|gs| - 1];
      assert Paths(init) == Paths(gs)[..|gs| - 1];
      OneElementPerFile(init);
      var before := FilesWithText(init);
      assert FilesWithText(gs) == before + (if HasText(g) then [g.0] else []);
      if HasText(g) {
        FilesWithTextArePaths(init);
        forall k | 0 <= k < |before| ensures before[k] != g.0 {
          var j :| 0 <= j < |init| && init[j].0 == before[k];
          assert Paths(gs)[j] == before[k] && Paths(gs)[|gs| - 1] == g.0;
        }
      }
    }
  }

  /** With no text anywhere, the document is the bare pair of tags on two lines. */
  lemma {:induction false} NoTextDocument(gs: Groups)
    requires forall k :: 0 <= k < |gs| ==> !HasText(gs[k])
    ensures ContentDocument(gs) == "<results>\n</results>"
  {
    NoTextNoParts(gs);
    assert [ResultsOpen] + ContentParts(gs) + [ResultsClose] == [ResultsOpen, ResultsClose];
    BareResults();
  }

  lemma {:induction false} NoTextNoParts(gs: Groups)
    requires forall k :: 0 <= k < |gs| ==> !HasText(gs[k])
    ensures ContentParts(gs) == []
    decreases |gs|
  {
    if gs != [] {
      var g := gs[|gs| - 1];
      NoTextNoParts(gs[..|gs| - 1]);
      FileElementShape(g.0, g.1);
      assert FileElement(g.0, g.1) == [];
    }
  }
}
