/**
 * src/utils/response_transformer.py, per-hit part: the raw search hit, the path
 * it is filed under, and the info record kept for it.
 */
module ResultPaths {
  import opened Wrappers
  import opened Strings

  /**
   * How far a hit can be read with `.get`. The lookups default a missing object
   * to `{}`, but an object key holding null or another non-object value makes the
   * next `.get` raise `AttributeError`.
   */
  datatype Shape =
    | Readable                           // every object on the lookup paths is an object or absent
    | HitNotAnObject(typeName: string)   // the hit itself is not an object
    | LocationNotAnObject(typeName: string)  // "location" holds null or another non-object
    | RangeNotReadable(typeName: string)     // "range" is truthy, but it, or its "start", is not an object
    | EndNotAnObject(typeName: string)       // "range" and "start" are objects, but "end" holds null or another non-object

  /**
   * One element of the response's `results` array. A leaf field is `None` when
   * its key is absent or holds null, or when an enclosing object is absent; an
   * enclosing value that is present but not an object is recorded in `shape`
   * instead, and the fields below it are then never read.
   */
  datatype Record = Record(
    kind: Option<string>,          // "kind"
    locationPath: Option<string>,  // "location" → "path"
    startLine: Option<int>,        // "location" → "range" → "start" → "line"
    endLine: Option<int>,          // "location" → "range" → "end" → "line"
    identifier: Option<string>,    // "identifier", e.g. "owner/repo::path/file.py::symbol"
    content: Option<string>,       // "content"
    snippet: Option<string>,       // "snippet"
    shape: Shape)

  /** `str(e)` for the `AttributeError` raised by `.get` on a value of the named type. */
  function NoAttributeGet(typeName: string): string {
    "'" + typeName + "' object has no attribute 'get'"
  }

  /** The info dict `_build_result_info` builds: only "kind", the line pair and one text survive. */
  datatype Info = Info(
    kind: Option<string>,
    startLine: Option<int>,
    endLine: Option<int>,
    content: Option<string>,
    snippet: Option<string>)

  /** `result.get("kind", "")`, with null read as the empty kind too. */
  function KindOf(r: Record): string {
    r.kind.GetOr("")
  }

  /** The separator of the composite identifier. */
  const IdentifierSeparator: string := "::"

  /** `_extract_path_from_result`: `location.path`, else the second `::` segment of `identifier`. */
  function ExtractPath(r: Record): (p: Option<string>)
    ensures Truthy(r.locationPath) ==> p == r.locationPath
    ensures !Truthy(r.locationPath) && !Truthy(r.identifier) ==> p.None?
  {
    if Truthy(r.locationPath) then r.locationPath
    else if Truthy(r.identifier) then
      var parts := Split(r.identifier.value, IdentifierSeparator);
      if |parts| >= 2 then Some(parts[1]) else None
    else None
  }

  /**
   * Without a usable `location.path`, the path is the text between the first
   * `::` of the identifier and the next one (or the end); with no `::` at all
   * there is no path.
   */
  lemma PathFromIdentifier(r: Record, i: nat)
    requires !Truthy(r.locationPath) && Truthy(r.identifier)
    requires FirstOccurrence(r.identifier.value, IdentifierSeparator, i)
    ensures var rest := r.identifier.value[i + 2..];
      (forall j: nat :: !OccursAt(rest, IdentifierSeparator, j)) ==> ExtractPath(r) == Some(rest)
    ensures var rest := r.identifier.value[i + 2..];
      forall j: nat :: FirstOccurrence(rest, IdentifierSeparator, j) ==> ExtractPath(r) == Some(rest[..j])
  {
    var id := r.identifier.value;
    var rest := id[i + 2..];
    SplitAtFirst(id, IdentifierSeparator, i);
    if forall j: nat :: !OccursAt(rest, IdentifierSeparator, j) {
      SplitWithoutOccurrence(rest, IdentifierSeparator);
    }
    forall j: nat | FirstOccurrence(rest, IdentifierSeparator, j) ensures ExtractPath(r) == Some(rest[..j]) {
      SplitAtFirst(rest, IdentifierSeparator, j);
    }
  }

  /** An identifier without any `::` yields no path. */
  lemma NoPathWithoutSeparator(r: Record)
    requires !Truthy(r.locationPath) && Truthy(r.identifier)
    requires forall j: nat :: !OccursAt(r.identifier.value, IdentifierSeparator, j)
    ensures ExtractPath(r).None?
  {
    SplitHasSeveralPieces(r.identifier.value, IdentifierSeparator);
  }

  /**
   * The message of the exception `_group_results_by_file` raises on this hit, if
   * any. A hit that is not an object raises at its "kind"; a folder is skipped
   * before its location is read; a non-object location raises while the path is
   * extracted; an unreadable range or start raises only for a hit that got a
   * path, when its info is built; an unreadable end is read only when the start
   * has a line, since the test of the two lines short-circuits.
   */
  function Raised(r: Record): (m: Option<string>)
    ensures r.shape.Readable? ==> m.None?
    ensures r.shape.HitNotAnObject? ==> m == Some(NoAttributeGet(r.shape.typeName))
    ensures m.Some? ==> m == Some(NoAttributeGet(r.shape.typeName))
    ensures !r.shape.HitNotAnObject? && KindOf(r) == "Folder" ==> m.None?
    ensures r.shape.EndNotAnObject? && r.startLine.None? ==> m.None?
  {
    match r.shape
    case Readable => None
    case HitNotAnObject(t) => Some(NoAttributeGet(t))
    case LocationNotAnObject(t) => if KindOf(r) == "Folder" then None else Some(NoAttributeGet(t))
    case RangeNotReadable(t) => if KindOf(r) == "Folder" || !Truthy(ExtractPath(r)) then None else Some(NoAttributeGet(t))
    case EndNotAnObject(t) =>
      if KindOf(r) == "Folder" || !Truthy(ExtractPath(r)) || r.startLine.None? then None else Some(NoAttributeGet(t))
  }

  /** The line pair is kept together: both lines or neither. */
  predicate LinesPaired(info: Info) {
    info.startLine.Some? <==> info.endLine.Some?
  }

  /** `_build_result_info(result, include_content)`. */
  function BuildResultInfo(r: Record, includeContent: bool): (info: Info)
    ensures info.kind == r.kind
    ensures LinesPaired(info)
    ensures info.startLine.Some? <==> r.startLine.Some? && r.endLine.Some?
    ensures info.startLine.Some? ==> info.startLine == r.startLine && info.endLine == r.endLine
    ensures !(info.content.Some? && info.snippet.Some?)
    ensures info.content.Some? <==> includeContent && Truthy(r.content)
    ensures info.snippet.Some? <==> includeContent && !Truthy(r.content) && Truthy(r.snippet)
    ensures info.content.Some? ==> info.content == r.content
    ensures info.snippet.Some? ==> info.snippet == r.snippet
  {
    var lines := r.startLine.Some? && r.endLine.Some?;
    Info(
      r.kind,
      if lines then r.startLine else None,
      if lines then r.endLine else None,
      if includeContent && Truthy(r.content) then r.content else None,
      if includeContent && !Truthy(r.content) && Truthy(r.snippet) then r.snippet else None)
  }

  /** The text a kept info contributes to a file body: its content, else its snippet. */
  function Body(info: Info): Option<string> {
    if info.content.Some? then info.content else info.snippet
  }

  /** The text of a hit is its content whenever that is non-empty; the snippet only stands in for a missing content. */
  lemma BodyPrefersContent(r: Record)
    ensures Truthy(r.content) ==> Body(BuildResultInfo(r, true)) == r.content
    ensures !Truthy(r.content) ==> Body(BuildResultInfo(r, true)) == (if Truthy(r.snippet) then r.snippet else None)
  {
  }
}
