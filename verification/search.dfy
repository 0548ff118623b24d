/**
 * src/tools/search.py: `codebase_search` checks the query, normalises the
 * mode, builds the ordered query parameters, sends one request and turns the
 * answer into the XML-like document. The request is a parameter: `server` maps
 * the parameter list to what the call produced. The data-source names arrive
 * already normalised (the normalising helper is not part of this model).
 */
module Search {
  import opened Wrappers
  import opened Strings
  import opened Errors
  import opened ResultPaths
  import opened ReferenceXml
  import opened ResponseTransformer

  const EmptyQueryError: string :=
    "<error>Query cannot be empty. Please provide a search term, function name, or description of the code you're looking for.</error>"

  const NotFoundMessage: string :=
    "Error: Not found (404): One or more data sources could not be found. Check your data_sources."

  /** The modes the backend knows. */
  const Modes: seq<string> := ["auto", "fast", "deep"]

  /** The mode sent: the lower-cased mode when it is a known one, else "auto". */
  function NormalizedMode(mode: Option<string>): (m: string)
    ensures m in Modes
  {
    var lowered := if Truthy(mode) then LowerAscii(mode.value) else "auto";
    if lowered in Modes then lowered else "auto"
  }

  /** One query parameter: a name and its value. */
  type Param = (string, string)

  /** One `("Names", n)` parameter per non-empty name, in input order. */
  function NameParams(names: seq<Option<string>>): seq<Param>
    decreases |names|
  {
    if names == [] then []
    else
      var n := names[|names| - 1];
      NameParams(names[..|names| - 1]) + (if Truthy(n) then [("Names", n.value)] else [])
  }

  /** The fixed first three parameters. */
  function LeadingParams(query: string, mode: Option<string>, includeContent: bool): seq<Param> {
    [("Query", query), ("Mode", NormalizedMode(mode)), ("IncludeContent", if includeContent then "true" else "false")]
  }

  /** The `params` list. */
  function Params(query: string, mode: Option<string>, includeContent: bool, names: seq<Option<string>>): seq<Param> {
    LeadingParams(query, mode, includeContent) + NameParams(names)
  }

  /** The list-building part of `codebase_search`: the fixed three, then the loop over the names. */
  method BuildParams(query: string, mode: Option<string>, includeContent: bool, names: seq<Option<string>>) returns (params: seq<Param>)
    ensures params == Params(query, mode, includeContent, names)
  {
    var normalizedMode := if Truthy(mode) then LowerAscii(mode.value) else "auto";
    if normalizedMode !in Modes {
      normalizedMode := "auto";
    }
    params := [("Query", query), ("Mode", normalizedMode), ("IncludeContent", if includeContent then "true" else "false")];
    ghost var leading := params;
    for i := 0 to |names|
      invariant params == leading + NameParams(names[..i])
    {
      TakeOneMore(names, i);
      var dsName := names[i];
      if Truthy(dsName) {
        AppendAssociates(leading, NameParams(names[..i]), [("Names", dsName.value)]);
        params := params + [("Names", dsName.value)];
      }
    }
    Whole(names);
  }

  /** What the search request produced. */
  datatype SearchExchange =
    | SearchFailed(error: ApiError)        // the call, `raise_for_status` or `response.json()` raised
    | Answered(body: SearchResponse)       // the decoded body

  /** The text for a caught exception, wrapped in an `<error>` element. */
  function SearchError(e: ApiError): string {
    "<error>" + (if e.HttpStatus? && e.code == 404 then NotFoundMessage else HandleApiError(e, "code search")) + "</error>"
  }

  /** What `codebase_search` returns. */
  function SearchAnswer(query: string, names: seq<Option<string>>, mode: Option<string>, includeContent: bool,
                        server: seq<Param> -> SearchExchange): string
  {
    if IsBlank(query) then EmptyQueryError
    else SearchReply(server(Params(query, mode, includeContent, names)), includeContent)
  }

  /**
   * The answer made of what the request produced. The transformer runs inside
   * the same `try`, so an exception it raises is answered like a failed request.
   */
  function SearchReply(response: SearchExchange, includeContent: bool): string {
    match response
    case SearchFailed(e) => SearchError(e)
    case Answered(body) =>
      if Raising(body).Some? then SearchError(Failure(Raising(body).value)) else Transformed(body, includeContent)
  }

  /** The part of `codebase_search` after the request: the document, or the `except` clause for whatever was raised. */
  method Respond(response: SearchExchange, includeContent: bool) returns (answer: string)
    ensures answer == SearchReply(response, includeContent)
  {
    var e: ApiError;
    match response {
      case SearchFailed(error) =>
        e := error;
      case Answered(body) =>
        var xmlContent, raised := TransformSearchResponseToXml(body, includeContent);
        if raised.None? {
          return xmlContent;
        }
        e := Failure(raised.value);
    }
    var errorMsg := HandleApiError(e, "code search");
    if e.HttpStatus? && e.code == 404 {
      errorMsg := NotFoundMessage;
    }
    answer := "<error>" + errorMsg + "</error>";
  }

  /** `codebase_search(ctx, query, data_sources, mode, include_content)`, without the `ctx` notifications. */
  method CodebaseSearch(query: string, names: seq<Option<string>>, mode: Option<string>, includeContent: bool,
                        server: seq<Param> -> SearchExchange) returns (answer: string)
    ensures answer == SearchAnswer(query, names, mode, includeContent, server)
  {
    StripEmptyIffBlank(query);
    if query == "" || Strip(query) == "" {
      return EmptyQueryError;
    }
    var params := BuildParams(query, mode, includeContent, names);
    var response := server(params);
    answer := Respond(response, includeContent);
  }

  // ---------------------------------------------------------------------
  // Properties
  // ---------------------------------------------------------------------

  /** An empty or whitespace-only query is refused with the fixed text before any request. */
  lemma BlankQueryNoRequest(query: string, names: seq<Option<string>>, mode: Option<string>, includeContent: bool,
                            server: seq<Param> -> SearchExchange)
    requires forall k :: 0 <= k < |query| ==> IsSpace(query[k])
    ensures SearchAnswer(query, names, mode, includeContent, server) == EmptyQueryError
  {
  }

  /** A missing or empty mode means "auto"; otherwise case is ignored, and an unknown mode means "auto". */
  lemma ModeNormalization(mode: Option<string>)
    ensures !Truthy(mode) ==> NormalizedMode(mode) == "auto"
    ensures Truthy(mode) && LowerAscii(mode.value) in Modes ==> NormalizedMode(mode) == LowerAscii(mode.value)
    ensures Truthy(mode) && LowerAscii(mode.value) !in Modes ==> NormalizedMode(mode) == "auto"
    ensures mode.Some? ==> NormalizedMode(Some(LowerAscii(mode.value))) == NormalizedMode(mode)
    ensures NormalizedMode(Some(NormalizedMode(mode))) == NormalizedMode(mode)
  {
    var m := NormalizedMode(mode);
    LowerAsciiIdempotent(m);
    assert LowerAscii(m) == m by {
      if m == "auto" {
        assert LowerAscii(m) == "auto";
      } else if m == "fast" {
        assert LowerAscii(m) == "fast";
      } else {
        assert LowerAscii(m) == "deep";
      }
    }
    if mode.Some? {
      LowerAsciiIdempotent(mode.value);
      assert Truthy(Some(LowerAscii(mode.value))) <==> Truthy(mode);
    }
  }

  /** Names are handled one by one: the parameters of a concatenation are concatenated. */
  lemma {:induction false} NameParamsAppend(a: seq<Option<string>>, b: seq<Option<string>>)
    ensures NameParams(a + b) == NameParams(a) + NameParams(b)
    decreases |b|
  {
    if b == [] {
      assert a + b == a;
    } else {
      var b' := b[..|b| - 1];
      NameParamsAppend(a, b');
      assert (a + b)[..|a + b| - 1] == a + b';
      assert (a + b)[|a + b| - 1] == b[|b| - 1];
    }
  }

  /**
   * Each non-empty name gives one "Names" parameter and empty ones give none,
   * so the name parameters are exactly the non-empty names, never more than the names.
   */
  lemma {:induction false} NameParamsAreTheNames(names: seq<Option<string>>)
    ensures |NameParams(names)| <= |names|
    ensures forall k :: 0 <= k < |NameParams(names)| ==> NameParams(names)[k].0 == "Names" && NameParams(names)[k].1 != ""
    ensures forall i :: 0 <= i < |names| && Truthy(names[i]) ==> ("Names", names[i].value) in NameParams(names)
    decreases |names|
  {
    if names != [] {
      var init := names[..|names| - 1];
      NameParamsAreTheNames(init);
      var last := names[|names| - 1];
      var ps := NameParams(names);
      assert ps == NameParams(init) + (if Truthy(last) then [("Names", last.value)] else []);
      forall i | 0 <= i < |names| && Truthy(names[i]) ensures ("Names", names[i].value) in ps {
        if i < |init| {
          assert names[i] == init[i];
          assert ("Names", init[i].value) in NameParams(init);
        } else {
          assert ps[|ps| - 1] == ("Names", last.value);
        }
      }
    }
  }

  /** The parameters start with the query, the normalised mode and the content flag, in that order, then the names. */
  lemma ParamsShape(query: string, mode: Option<string>, includeContent: bool, names: seq<Option<string>>)
    ensures |Params(query, mode, includeContent, names)| >= 3
    ensures Params(query, mode, includeContent, names)[0] == ("Query", query)
    ensures Params(query, mode, includeContent, names)[1] == ("Mode", NormalizedMode(mode))
    ensures Params(query, mode, includeContent, names)[2] == ("IncludeContent", if includeContent then "true" else "false")
    ensures Params(query, mode, includeContent, names)[3..] == NameParams(names)
  {
  }

  /** A successful search answers exactly with the transformed response body. */
  lemma SearchSuccess(query: string, names: seq<Option<string>>, mode: Option<string>, includeContent: bool,
                      server: seq<Param> -> SearchExchange, body: SearchResponse)
    requires !IsBlank(query)
    requires server(Params(query, mode, includeContent, names)) == Answered(body)
    requires Raising(body).None?
    ensures SearchAnswer(query, names, mode, includeContent, server) == Transformed(body, includeContent)
  {
  }

  /**
   * A body with an unreadable hit (one the transformer raises on) answers with
   * the text `handle_api_error` gives for a non-HTTP exception inside an
   * `<error>` element, never the not-found text.
   */
  lemma SearchUnreadableHit(query: string, names: seq<Option<string>>, mode: Option<string>, includeContent: bool,
                            server: seq<Param> -> SearchExchange, body: SearchResponse)
    requires !IsBlank(query)
    requires server(Params(query, mode, includeContent, names)) == Answered(body)
    requires Raising(body).Some?
    ensures SearchAnswer(query, names, mode, includeContent, server) ==
      "<error>" + HandleApiError(Failure(Raising(body).value), "code search") + "</error>"
  {
  }

  /**
   * A hit whose range has an empty "start" and a null "end" is answered with a
   * document: the end is read only after a start line was found.
   */
  lemma UnreadEndAnswer()
    ensures var hit := Record(None, Some("a.py"), None, None, None, None, None, EndNotAnObject("NoneType"));
      SearchReply(Answered(Object(Some([hit]))), false) == ReferenceDocument([("a.py", [Info(None, None, None, None, None)])])
  {
    var hit := Record(None, Some("a.py"), None, None, None, None, None, EndNotAnObject("NoneType"));
    UnreadEndKeepsHit(hit);
  }

  /**
   * A hit whose "location" is null, even with a usable identifier, makes the
   * search answer with the error element rather than a document.
   */
  lemma NullLocationAnswer(includeContent: bool)
    ensures var hit := Record(None, None, None, None, Some("o/r::a.py::x"), None, None, LocationNotAnObject("NoneType"));
      SearchReply(Answered(Object(Some([hit]))), includeContent) ==
        "<error>" + HandleApiError(Failure(NoAttributeGet("NoneType")), "code search") + "</error>"
  {
    var hit := Record(None, None, None, None, Some("o/r::a.py::x"), None, None, LocationNotAnObject("NoneType"));
    NullLocationRaises(hit);
  }

  /** A failed search answers with the error text inside an `<error>` element; a 404 gets the fixed not-found text. */
  lemma SearchFailure(query: string, names: seq<Option<string>>, mode: Option<string>, includeContent: bool,
                      server: seq<Param> -> SearchExchange, e: ApiError)
    requires !IsBlank(query)
    requires server(Params(query, mode, includeContent, names)) == SearchFailed(e)
    ensures e.HttpStatus? && e.code == 404 ==>
      SearchAnswer(query, names, mode, includeContent, server) == "<error>" + NotFoundMessage + "</error>"
    ensures !(e.HttpStatus? && e.code == 404) ==>
      SearchAnswer(query, names, mode, includeContent, server) == "<error>" + HandleApiError(e, "code search") + "</error>"
  {
  }
}
