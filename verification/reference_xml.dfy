/**
 * src/utils/response_transformer.py, reference-only rendering
 * (`_build_xml_attributes`, `_build_xml_without_content`): one self-closing
 * `search_result` element per kept hit, without any file text.
 */
module ReferenceXml {
  import opened Wrappers
  import opened Strings
  import opened Markup
  import opened ResultPaths
  import opened FileGrouping

  const ResultsOpen: string := "<results>"
  const ResultsClose: string := "</results>"

  /** The attribute names a reference element may carry. */
  datatype AttributeName = Path | StartLine | EndLine | Kind

  /** The name as written in the element. */
  function NameText(n: AttributeName): string {
    match n
    case Path => "path"
    case StartLine => "startLine"
    case EndLine => "endLine"
    case Kind => "kind"
  }

  /** One attribute: its name and its value as written between the quotes. */
  datatype Attribute = Attribute(name: AttributeName, value: string)

  /** `name="value"`. */
  function Render(a: Attribute): string {
    NameText(a.name) + "=\"" + a.value + "\""
  }

  /** Every attribute rendered, in order. */
  function Rendered(attrs: seq<Attribute>): (r: seq<string>)
    ensures |r| == |attrs|
    ensures forall i :: 0 <= i < |attrs| ==> r[i] == Render(attrs[i])
  {
    seq(|attrs|, i requires 0 <= i < |attrs| => Render(attrs[i]))
  }

  /** Does the list carry an attribute called `name`? */
  predicate Has(attrs: seq<Attribute>, name: AttributeName) {
    exists i :: 0 <= i < |attrs| && attrs[i].name == name
  }

  /** `[a]` when `present`, else nothing. */
  function OptionalAttribute(present: bool, a: Attribute): (r: seq<Attribute>)
    ensures |r| <= 1 && (present <==> |r| == 1) && (present ==> r[0] == a)
  {
    if present then [a] else []
  }

  /** `_build_xml_attributes(path, result)`: the escaped path, then the lines and the kind when present. */
  function Attributes(path: string, info: Info): (attrs: seq<Attribute>)
    ensures 1 <= |attrs| <= 4
    ensures attrs[0] == Attribute(Path, Escape(path))
  {
    [Attribute(Path, Escape(path))]
    + OptionalAttribute(info.startLine.Some?, Attribute(StartLine, IntToDecimal(info.startLine.GetOr(0))))
    + OptionalAttribute(info.endLine.Some?, Attribute(EndLine, IntToDecimal(info.endLine.GetOr(0))))
    + OptionalAttribute(Truthy(info.kind), Attribute(Kind, Escape(info.kind.GetOr(""))))
  }

  /**
   * The path always comes first and only there; `startLine` and `endLine` are
   * present exactly when the info has them, and `kind` exactly when it is non-empty.
   */
  lemma AttributePresence(path: string, info: Info)
    ensures Has(Attributes(path, info), StartLine) <==> info.startLine.Some?
    ensures Has(Attributes(path, info), EndLine) <==> info.endLine.Some?
    ensures Has(Attributes(path, info), Kind) <==> Truthy(info.kind)
    ensures forall i :: 0 < i < |Attributes(path, info)| ==> Attributes(path, info)[i].name != Path
  {
    var s := OptionalAttribute(info.startLine.Some?, Attribute(StartLine, IntToDecimal(info.startLine.GetOr(0))));
    var e := OptionalAttribute(info.endLine.Some?, Attribute(EndLine, IntToDecimal(info.endLine.GetOr(0))));
    var k := OptionalAttribute(Truthy(info.kind), Attribute(Kind, Escape(info.kind.GetOr(""))));
    var attrs := Attributes(path, info);
    assert attrs == [Attribute(Path, Escape(path))] + s + e + k;
    forall i | 0 < i < |attrs|
      ensures attrs[i].name != Path
      ensures attrs[i].name == StartLine ==> info.startLine.Some?
      ensures attrs[i].name == EndLine ==> info.endLine.Some?
      ensures attrs[i].name == Kind ==> Truthy(info.kind)
    {
      if i < 1 + |s| {
        assert attrs[i] == s[i - 1];
      } else if i < 1 + |s| + |e| {
        assert attrs[i] == e[i - 1 - |s|];
      } else {
        assert attrs[i] == k[i - 1 - |s| - |e|];
      }
    }
    if info.startLine.Some? {
      assert attrs[1].name == StartLine;
    }
    if info.endLine.Some? {
      assert attrs[1 + |s|].name == EndLine;
    }
    if Truthy(info.kind) {
      assert attrs[1 + |s| + |e|].name == Kind;
    }
  }

  /**
   * Every attribute value is free of quotes and angle brackets, so it ends at
   * the next `"`; and each value reads back to what it was made from.
   */
  lemma AttributesReadBack(path: string, info: Info)
    ensures forall i :: 0 <= i < |Attributes(path, info)| ==>
      SafeValue(Attributes(path, info)[i]) && ReadsBack(Attributes(path, info)[i], path, info)
  {
    var p := [Attribute(Path, Escape(path))];
    var os := OptionalAttribute(info.startLine.Some?, Attribute(StartLine, IntToDecimal(info.startLine.GetOr(0))));
    var oe := OptionalAttribute(info.endLine.Some?, Attribute(EndLine, IntToDecimal(info.endLine.GetOr(0))));
    var ok := OptionalAttribute(Truthy(info.kind), Attribute(Kind, Escape(info.kind.GetOr(""))));
    PathReadsBack(path, info);
    LineReadsBack(path, info, StartLine, info.startLine);
    LineReadsBack(path, info, EndLine, info.endLine);
    KindReadsBack(path, info);
    AllReadBackConcat(p, os, path, info);
    AllReadBackConcat(p + os, oe, path, info);
    AllReadBackConcat(p + os + oe, ok, path, info);
  }

  /** Every attribute of the list is safe and reads back. */
  predicate AllReadBack(attrs: seq<Attribute>, path: string, info: Info) {
    forall i :: 0 <= i < |attrs| ==> SafeValue(attrs[i]) && ReadsBack(attrs[i], path, info)
  }

  lemma AllReadBackConcat(a: seq<Attribute>, b: seq<Attribute>, path: string, info: Info)
    requires AllReadBack(a, path, info) && AllReadBack(b, path, info)
    ensures AllReadBack(a + b, path, info)
  {
    forall i | 0 <= i < |a + b| ensures SafeValue((a + b)[i]) && ReadsBack((a + b)[i], path, info) {
      if i >= |a| {
        assert (a + b)[i] == b[i - |a|];
      }
    }
  }

  lemma PathReadsBack(path: string, info: Info)
    ensures AllReadBack([Attribute(Path, Escape(path))], path, info)
  {
    EscapeIsSafe(path);
    UnescapeEscape(path);
  }

  lemma LineReadsBack(path: string, info: Info, name: AttributeName, line: Option<int>)
    requires (name == StartLine && line == info.startLine) || (name == EndLine && line == info.endLine)
    ensures AllReadBack(OptionalAttribute(line.Some?, Attribute(name, IntToDecimal(line.GetOr(0)))), path, info)
  {
    IntRoundTrip(line.GetOr(0));
    DecimalIsNotMarkup(line.GetOr(0));
  }

  lemma KindReadsBack(path: string, info: Info)
    ensures AllReadBack(OptionalAttribute(Truthy(info.kind), Attribute(Kind, Escape(info.kind.GetOr("")))), path, info)
  {
    EscapeIsSafe(info.kind.GetOr(""));
    UnescapeEscape(info.kind.GetOr(""));
  }

  /** No quote or angle bracket in the value, so it ends at the next `"`. */
  predicate SafeValue(a: Attribute) {
    forall k :: 0 <= k < |a.value| ==> !IsMarkupSpecial(a.value[k])
  }

  /** The value reads back to the field of `path` or `info` it was made from, and that field is present. */
  predicate ReadsBack(a: Attribute, path: string, info: Info) {
    match a.name
    case Path => Unescape(a.value) == path
    case StartLine => info.startLine.Some? && ParseInt(a.value) == info.startLine.value
    case EndLine => info.endLine.Some? && ParseInt(a.value) == info.endLine.value
    case Kind => Truthy(info.kind) && Unescape(a.value) == info.kind.value
  }

  /** A decimal rendering holds only digits and a sign. */
  lemma DecimalIsNotMarkup(n: int)
    ensures forall k :: 0 <= k < |IntToDecimal(n)| ==> !IsMarkupSpecial(IntToDecimal(n)[k])
  {
    var d := NatToDecimal(if n < 0 then -n else n);
    assert IsDigits(d);
    if n < 0 {
      assert forall k :: 1 <= k < |IntToDecimal(n)| ==> IntToDecimal(n)[k] == d[k - 1];
    }
  }

  /** A self-closing `search_result` element, indented by two spaces. */
  function SelfClosingElement(attrs: seq<Attribute>): string {
    "  <search_result " + Join(Rendered(attrs), " ") + " />"
  }

  /** The element of one hit. */
  function ReferenceLine(path: string, info: Info): string {
    SelfClosingElement(Attributes(path, info))
  }

  /** The elements of one group, in arrival order. */
  function GroupLines(path: string, infos: seq<Info>): (lines: seq<string>)
    ensures |lines| == |infos|
    ensures forall j :: 0 <= j < |infos| ==> lines[j] == ReferenceLine(path, infos[j])
    decreases |infos|
  {
    if infos == [] then []
    else GroupLines(path, infos[..|infos| - 1]) + [ReferenceLine(path, infos[|infos| - 1])]
  }

  /** The elements of one group as a function of the group. */
  function GroupOf(group: (string, seq<Info>)): seq<string> {
    GroupLines(group.0, group.1)
  }

  /** The elements of all groups, group after group. */
  function ReferenceLines(gs: Groups): seq<string> {
    FlatMap(gs, GroupOf)
  }

  /** The reference-only document. */
  function ReferenceDocument(gs: Groups): string {
    Join([ResultsOpen] + ReferenceLines(gs) + [ResultsClose], "\n")
  }

  /** `_build_xml_without_content(file_groups)`. */
  method BuildXmlWithoutContent(fileGroups: Groups) returns (xml: string)
    ensures xml == ReferenceDocument(fileGroups)
  {
    var xmlParts := [ResultsOpen];
    for i := 0 to |fileGroups|
      invariant xmlParts == [ResultsOpen] + ReferenceLines(fileGroups[..i])
    {
      var path := fileGroups[i].0;
      var results := fileGroups[i].1;
      ghost var before := xmlParts;
      for j := 0 to |results|
        invariant xmlParts == before + GroupLines(path, results[..j])
      {
        var attrs := Attributes(path, results[j]);
        xmlParts := xmlParts + [SelfClosingElement(attrs)];
        GroupLinesSnoc(path, results, j);
        AppendAssociates(before, GroupLines(path, results[..j]), [ReferenceLine(path, results[j])]);
      }
      ReferenceLinesSnoc(fileGroups, i);
      AppendAssociates([ResultsOpen], ReferenceLines(fileGroups[..i]), GroupLines(path, results[..|results|]));
    }
    Whole(fileGroups);
    xmlParts := xmlParts + [ResultsClose];
    xml := Join(xmlParts, "\n");
  }

  lemma GroupLinesSnoc(path: string, infos: seq<Info>, j: nat)
    requires j < |infos|
    ensures GroupLines(path, infos[..j + 1]) == GroupLines(path, infos[..j]) + [ReferenceLine(path, infos[j])]
  {
    assert infos[..j + 1][..j] == infos[..j];
  }

  lemma ReferenceLinesSnoc(gs: Groups, i: nat)
    requires i < |gs|
    ensures ReferenceLines(gs[..i + 1]) == ReferenceLines(gs[..i]) + GroupLines(gs[i].0, gs[i].1[..|gs[i].1|])
  {
    TakeOneMore(gs, i);
    assert gs[i].1[..|gs[i].1|] == gs[i].1;
  }

  /** One element per kept hit. */
  lemma {:induction false} OneLinePerHit(gs: Groups)
    ensures |ReferenceLines(gs)| == TotalSize(gs)
    decreases |gs|
  {
    if gs != [] {
      OneLinePerHit(gs[..|gs| - 1]);
    }
  }

  /**
   * Elements come group by group, and in arrival order within a group: hit `j`
   * of group `g` is element number `TotalSize(gs[..g]) + j`.
   */
  lemma {:induction false} LinePosition(gs: Groups, g: nat, j: nat)
    requires g < |gs| && j < |gs[g].1|
    ensures TotalSize(gs[..g]) + j < |ReferenceLines(gs)|
    ensures ReferenceLines(gs)[TotalSize(gs[..g]) + j] == ReferenceLine(gs[g].0, gs[g].1[j])
  {
    GroupPosition(gs, g, j);
  }

  /** Element `j` of group `g`'s elements comes after the elements of the groups before it. */
  lemma GroupPosition(gs: Groups, g: nat, j: nat)
    requires g < |gs| && j < |gs[g].1|
    ensures TotalSize(gs[..g]) + j < |ReferenceLines(gs)|
    ensures ReferenceLines(gs)[TotalSize(gs[..g]) + j] == GroupOf(gs[g])[j]
  {
    OneLinePerHit(gs[..g]);
    FlatMapPosition(gs, GroupOf, g, j);
  }

  /** With every hit dropped, the document is the bare pair of tags on two lines. */
  lemma NoHitsDocument()
    ensures ReferenceDocument([]) == "<results>\n</results>"
  {
    assert [ResultsOpen] + ReferenceLines([]) + [ResultsClose] == [ResultsOpen, ResultsClose];
    BareResults();
  }

  /** The two tags alone, joined by a newline. */
  lemma BareResults()
    ensures Join([ResultsOpen, ResultsClose], "\n") == "<results>\n</results>"
  {
    assert Join([ResultsOpen, ResultsClose], "\n") == ResultsOpen + "\n" + Join([ResultsClose], "\n");
  }

  /** An info with its texts removed. */
  function WithoutText(info: Info): Info {
    info.(content := None, snippet := None)
  }

  /** The groups with every text removed. */
  function StripTexts(gs: Groups): (r: Groups)
    ensures |r| == |gs|
    ensures forall g :: 0 <= g < |gs| ==> r[g].0 == gs[g].0 && |r[g].1| == |gs[g].1|
    ensures forall g, j :: 0 <= g < |gs| && 0 <= j < |gs[g].1| ==> r[g].1[j] == WithoutText(gs[g].1[j])
  {
    seq(|gs|, g requires 0 <= g < |gs| =>
      (gs[g].0, seq(|gs[g].1|, j requires 0 <= j < |gs[g].1| => WithoutText(gs[g].1[j]))))
  }

  /** No content or snippet reaches the reference-only document: removing them all changes nothing. */
  lemma {:induction false} ReferenceIgnoresText(gs: Groups)
    ensures ReferenceDocument(StripTexts(gs)) == ReferenceDocument(gs)
    decreases |gs|
  {
    assert ReferenceLines(StripTexts(gs)) == ReferenceLines(gs) by {
      LinesIgnoreText(gs);
    }
  }

  lemma {:induction false} LinesIgnoreText(gs: Groups)
    ensures ReferenceLines(StripTexts(gs)) == ReferenceLines(gs)
    decreases |gs|
  {
    if gs != [] {
      var n := |gs| - 1;
      var s := StripTexts(gs);
      assert s[..n] == StripTexts(gs[..n]);
      LinesIgnoreText(gs[..n]);
      assert GroupLines(s[n].0, s[n].1) == GroupLines(gs[n].0, gs[n].1);
    }
  }

  /** Every element of a grouped response carries both line attributes or neither. */
  lemma LinePairsInGroups(rs: seq<Record>)
    ensures forall g, x :: g in GroupsOf(Entries(rs)) && x in g.1 ==>
      (Has(Attributes(g.0, x), StartLine) <==> Has(Attributes(g.0, x), EndLine))
  {
    var es := Entries(rs);
    forall g, x | g in GroupsOf(es) && x in g.1
      ensures Has(Attributes(g.0, x), StartLine) <==> Has(Attributes(g.0, x), EndLine)
    {
      SelectFromEntries(es, g.0);
      var i :| 0 <= i < |es| && es[i] == (g.0, x);
      EntriesArePaired(rs, i);
      AttributePresence(g.0, x);
    }
  }

  lemma {:induction false} EntriesArePaired(rs: seq<Record>, i: nat)
    requires i < |Entries(rs)|
    ensures LinesPaired(Entries(rs)[i].1)
    decreases |rs|
  {
    var init := rs[..|rs| - 1];
    if i < |Entries(init)| {
      EntriesArePaired(init, i);
    }
  }
}
