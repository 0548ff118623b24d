/**
 * src/utils/response_transformer.py, entry point: a search response becomes
 * one of the two XML-like documents, or the empty `<results></results>`.
 */
module ResponseTransformer {
  import opened Wrappers
  import opened Strings
  import opened ResultPaths
  import opened FileGrouping
  import opened ReferenceXml
  import opened ContentXml

  /**
   * The decoded search response as far as the transformer looks at it: either
   * something other than a JSON object, or an object whose "results" member is
   * absent or null (`None`) or an array of hits.
   */
  datatype SearchResponse = NotAnObject | Object(results: Option<seq<Record>>)

  /** The answer when there is nothing to transform: the two tags with nothing between them. */
  const EmptyResults: string := "<results></results>"

  /** Does the response carry at least one hit? */
  predicate HasHits(response: SearchResponse) {
    response.Object? && response.results.Some? && response.results.value != []
  }

  /**
   * The message of the `AttributeError` the transformer raises, if any: only a
   * response with hits reaches the grouping loop, which stops at the first
   * unreadable hit.
   */
  function Raising(response: SearchResponse): Option<string> {
    if HasHits(response) then FirstRaised(response.results.value) else None
  }

  /** What `transform_search_response_to_xml(search_results, include_content)` returns when it does not raise. */
  function Transformed(response: SearchResponse, includeContent: bool): string {
    if !HasHits(response) then EmptyResults
    else
      var groups := GroupsOf(Entries(response.results.value));
      if includeContent then ContentDocument(groups) else ReferenceDocument(groups)
  }

  /**
   * `transform_search_response_to_xml(search_results, include_content)`: the
   * document, or the message of the exception it raises (the document is then
   * of no interest).
   */
  method TransformSearchResponseToXml(response: SearchResponse, includeContent: bool)
    returns (xml: string, raised: Option<string>)
    ensures raised == Raising(response)
    ensures raised.None? ==> xml == Transformed(response, includeContent)
  {
    if !response.Object? || response.results.None? {
      return EmptyResults, None;
    }
    var results := response.results.value;
    if results == [] {
      return EmptyResults, None;
    }
    var fileGroups;
    fileGroups, raised := GroupResultsByFile(results);
    if raised.Some? {
      return "", raised;
    }
    if includeContent {
      xml := BuildXmlWithContent(fileGroups);
    } else {
      xml := BuildXmlWithoutContent(fileGroups);
    }
  }

  /** Both documents open with the `<results>` tag on a line of its own. */
  lemma DocumentOpening(middle: seq<string>)
    ensures |Join([ResultsOpen] + middle + [ResultsClose], "\n")| > |ResultsOpen|
    ensures Join([ResultsOpen] + middle + [ResultsClose], "\n")[..|ResultsOpen| + 1] == ResultsOpen + "\n"
  {
    var parts := [ResultsOpen] + middle + [ResultsClose];
    assert parts[0] == ResultsOpen && |parts| >= 2;
    assert Join(parts, "\n") == ResultsOpen + "\n" + Join(parts[1..], "\n");
  }

  /** A document, whatever lies between its tags, is never the empty answer. */
  lemma DocumentIsNotEmpty(middle: seq<string>)
    ensures Join([ResultsOpen] + middle + [ResultsClose], "\n") != EmptyResults
  {
    var d := Join([ResultsOpen] + middle + [ResultsClose], "\n");
    DocumentOpening(middle);
    assert d[|ResultsOpen|] == '\n';
    assert EmptyResults[|ResultsOpen|] == '<';
  }

  /**
   * The empty answer comes exactly from a response that is not an object, has
   * no "results", or has an empty array; any hit at all, even one that is then
   * dropped, gives a document whose opening tag stands on its own line.
   */
  lemma EmptyAnswerIffNoHits(response: SearchResponse, includeContent: bool)
    ensures Transformed(response, includeContent) == EmptyResults <==> !HasHits(response)
  {
    if HasHits(response) {
      var groups := GroupsOf(Entries(response.results.value));
      if includeContent {
        DocumentIsNotEmpty(ContentParts(groups));
      } else {
        DocumentIsNotEmpty(ReferenceLines(groups));
      }
    }
  }

  /** No hit survives filtering exactly when every hit is a folder or has no path. */
  lemma {:induction false} NoEntries(rs: seq<Record>)
    ensures Entries(rs) == [] <==> forall i :: 0 <= i < |rs| ==> KindOf(rs[i]) == "Folder" || !Truthy(ExtractPath(rs[i]))
    decreases |rs|
  {
    if rs != [] {
      var init := rs[..|rs| - 1];
      NoEntries(init);
      assert Entries(rs) == Entries(init) + EntryOf(rs[|rs| - 1]);
      if forall i :: 0 <= i < |rs| ==> KindOf(rs[i]) == "Folder" || !Truthy(ExtractPath(rs[i])) {
        forall i | 0 <= i < |init| ensures KindOf(init[i]) == "Folder" || !Truthy(ExtractPath(init[i])) {
          assert init[i] == rs[i];
        }
      } else if Entries(init) == [] {
        var i :| 0 <= i < |rs| && !(KindOf(rs[i]) == "Folder" || !Truthy(ExtractPath(rs[i])));
        if i < |init| {
          assert init[i] == rs[i];
        }
      }
    }
  }

  /**
   * When every hit is dropped (folders, hits without a path), both modes give
   * the bare pair of tags on two lines.
   */
  lemma AllHitsDropped(rs: seq<Record>, includeContent: bool)
    requires rs != []
    requires forall i :: 0 <= i < |rs| ==> KindOf(rs[i]) == "Folder" || !Truthy(ExtractPath(rs[i]))
    ensures Transformed(Object(Some(rs)), includeContent) == "<results>\n</results>"
  {
    NoEntries(rs);
    var groups := GroupsOf(Entries(rs));
    assert Keys([]) == [];
    assert groups == [];
    if includeContent {
      NoTextDocument(groups);
    } else {
      NoHitsDocument();
    }
  }

  /**
   * The transformer raises exactly when some hit raises, with the first such
   * hit's message; a response whose hits are all readable never raises.
   */
  lemma RaisingIffUnreadableHit(response: SearchResponse)
    ensures Raising(response).Some? <==>
      HasHits(response) && exists i :: 0 <= i < |response.results.value| && Raised(response.results.value[i]).Some?
    ensures HasHits(response) && (forall i :: 0 <= i < |response.results.value| ==> response.results.value[i].shape.Readable?) ==>
      Raising(response).None?
  {
    if HasHits(response) {
      FirstRaisedIsFirst(response.results.value);
    }
  }

  /** A non-folder hit whose "location" is null raises, even when its identifier names a path. */
  lemma NullLocationRaises(hit: Record)
    requires hit.shape == LocationNotAnObject("NoneType") && KindOf(hit) != "Folder"
    ensures Raising(Object(Some([hit]))) == Some(NoAttributeGet("NoneType"))
  {
    assert [hit][..0] == [] && [hit][0] == hit;
    assert FirstRaised([hit][..0]).None?;
    assert Raised(hit) == Some(NoAttributeGet("NoneType"));
  }

  /**
   * A hit whose "end" is not an object, but whose start has no line, does not
   * raise: the end is never read, and the hit gets a reference element with no
   * line attributes.
   */
  lemma UnreadEndKeepsHit(hit: Record)
    requires hit.shape.EndNotAnObject? && hit.startLine.None?
    requires KindOf(hit) != "Folder" && Truthy(ExtractPath(hit))
    ensures Raising(Object(Some([hit]))).None?
    ensures Transformed(Object(Some([hit])), false) == ReferenceDocument([(ExtractPath(hit).value, [BuildResultInfo(hit, true)])])
    ensures !Has(Attributes(ExtractPath(hit).value, BuildResultInfo(hit, true)), StartLine)
    ensures !Has(Attributes(ExtractPath(hit).value, BuildResultInfo(hit, true)), EndLine)
  {
    SingleHit(hit);
    AttributePresence(ExtractPath(hit).value, BuildResultInfo(hit, true));
  }

  /** In content mode every file that has text gets exactly one element: no path is listed twice. */
  lemma OneFileElementPerPath(rs: seq<Record>)
    ensures Distinct(FilesWithText(GroupsOf(Entries(rs))))
  {
    var es := Entries(rs);
    var gs := GroupsOf(es);
    KeysAreThePaths(es);
    assert Paths(gs) == Keys(es);
    OneElementPerFile(gs);
  }

  /** In reference mode the document has one line per kept hit between the two tags. */
  lemma ReferenceLineCount(rs: seq<Record>)
    ensures |ReferenceLines(GroupsOf(Entries(rs)))| == |Entries(rs)|
  {
    var groups := GroupsOf(Entries(rs));
    OneLinePerHit(groups);
    GroupSizesAddUp(Entries(rs));
  }
}
