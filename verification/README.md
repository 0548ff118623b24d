# CodeAlive MCP tools, modelled in Dafny

CodeAlive's MCP server exposes tools that forward to the hosted CodeAlive API
and reshape its answers for an LLM agent. This project models the core of
those tools and proves properties of the model.

- **`codebase_search`** (`search.dfy`)
  - refuses a blank query;
  - normalises the search mode;
  - builds the ordered query parameters;
  - sends one request and turns the decoded answer into an XML-like document.
- **The response transformer**, the centre of the model. It is split along its stages:
  - `result_paths.dfy` finds each hit's file path and builds the info record kept for it;
  - `file_grouping.dfy` groups hits by file in first-appearance order;
  - `start_line_sort.dfy` sorts the hits of one file by start line, stably;
  - `reference_xml.dfy` renders the reference-only document;
  - `content_xml.dfy` renders the content-inlined document with numbered or indented body lines;
  - `response_transformer.dfy` is the entry point.
- **`chat_completions`** (`chat.dfy`)
  - validates the messages and builds the request payload;
  - drains the streamed `data: ` lines into one answer;
  - maps failures to user-facing text.
- **`get_data_sources`** (`datasources.dfy`)
  - picks the endpoint;
  - removes `repositoryIds` from every Workspace entry, in place on the decoded objects;
  - renders the list.
- **`handle_api_error` and `format_data_source_ids`** (`errors.dfy`): the shared error text and the conversion of data-source references into `{"id": …}` records.
- **The n8n middleware** (`n8n_middleware.dfy`): deletes the four parameters n8n adds from a tool call's argument dict, in place, then calls the next handler on the same context.

Shared pieces:
- `wrappers.dfy`: `Option` and Python truthiness of optional strings.
- `strings.dfy`: `join`/`split`, decimal rendering, ASCII `lower` and `strip`.
- `markup.dfy`: `html.escape` and its inverse.
- `json.dfy`: an opaque JSON value.

What the shapes are:
- The transformer stages are functions; the loops of the source are methods proved against those functions.
- A decoded data source is a class whose field map the tool edits.
- The middleware's argument dict is a class holding an insertion-ordered key list and a value map. `Pop` and the stripping loop update both in place.
- The HTTP exchange, `json.loads` of a stream chunk and `json.dumps` are parameters of the tools.

## Model

| member | source | states |
|---|---|---|
| Errors.Excerpt | src/utils/errors.py:44 | the quoted detail is a prefix of the response text: exactly its first 200 characters when it is longer, and the whole text otherwise |
| Errors.HandleApiError | src/utils/errors.py:24-51 | every error text starts with "Error: "; for an HTTP status error the rest is `StatusMessage`: the fixed text of 401, 403, 404, 429, 500, 502 or 503, else the generic server text with the code for 500 and above, else "HTTP error: <code> - " and the response text's excerpt; any other error gives "Error during <operation>: <error>" followed by the hint to check the input parameters |
| Errors.UnknownServerStatus | src/utils/errors.py:39-42 | an unlisted status of 500 or more gets the generic server-error message with its code and no response text |
| Errors.UnknownClientStatus | src/utils/errors.py:39-44 | an unlisted status below 500 quotes exactly the first 200 characters of the response text, or all of a shorter one |
| Errors.StatusErrorIsShort | src/utils/errors.py:24-47 | for any three-digit status, whatever the response text, the error text is under 300 characters |
| Errors.RefOf | src/utils/errors.py:74-81 | a non-empty string becomes its record; a dict with a truthy id becomes a record of that id; anything else is skipped; no record has an empty id |
| Errors.RefsAppend | src/utils/errors.py:74-81 | conversion is item by item: the records of a concatenation are the concatenated records |
| Errors.RefsBounded | src/utils/errors.py:54-83 | never more records than items, and each record's non-empty id comes from some item |
| Errors.FormatDataSourceIds | src/utils/errors.py:54-83 | a missing list gives no records; otherwise the loop's result is the records of the usable items in input order |
| ResultPaths.ExtractPath | src/utils/response_transformer.py:77-86 | a truthy location path wins; without it and without an identifier there is no path |
| ResultPaths.PathFromIdentifier | src/utils/response_transformer.py:81-85 | otherwise the path is the identifier's text between the first `::` and the next one, or the end |
| ResultPaths.NoPathWithoutSeparator | src/utils/response_transformer.py:83-86 | an identifier without `::` gives no path |
| ResultPaths.Raised | src/utils/response_transformer.py:54-99 | a fully readable hit never raises, a folder object never raises, and an unreadable end never raises when the start has no line; a raising hit raises with `'T' object has no attribute 'get'` for the type it met |
| ResultPaths.BuildResultInfo | src/utils/response_transformer.py:89-110 | kind is copied; both lines are kept only together; content wins over snippet, and neither is kept without the content flag |
| ResultPaths.BodyPrefersContent | src/utils/response_transformer.py:104-108 | a hit's text is its non-empty content, else its non-empty snippet |
| FileGrouping.EntryOf | src/utils/response_transformer.py:54-67 | a hit is dropped exactly when it is a folder or has no path; a kept hit is filed under its non-empty path with its info |
| FileGrouping.KeysAreThePaths | src/utils/response_transformer.py:69-72 | the group keys are distinct and are exactly the paths of the kept hits |
| FileGrouping.SelectAbsent | src/utils/response_transformer.py:69-72 | a path never filed has no group members |
| FileGrouping.GroupsSnoc | src/utils/response_transformer.py:69-72 | filing one more hit either opens a new group at the end or appends to its path's group in place |
| FileGrouping.GroupsExtend | src/utils/response_transformer.py:70-72 | a hit whose path is already a key appends to that key's group and changes nothing else |
| FileGrouping.GroupSizesAddUp | src/utils/response_transformer.py:42-74 | grouping loses and duplicates no hit: the group sizes add up to the number of kept hits |
| FileGrouping.KeysInFirstAppearanceOrder | src/utils/response_transformer.py:52-72 | groups are ordered by the first appearance of their path |
| FileGrouping.SelectAppend | src/utils/response_transformer.py:72 | each group lists its path's infos in arrival order: selection commutes with concatenation |
| FileGrouping.EntriesHaveNoFolders | src/utils/response_transformer.py:58-64 | no kept hit is a folder or has an empty path |
| FileGrouping.NoFolderInGroups | src/utils/response_transformer.py:54-59 | no folder hit reaches any group |
| FileGrouping.GroupResultsByFile | src/utils/response_transformer.py:42-74 | the loop stops with the message of the first hit that raises; when none raises, it builds `GroupsOf(Entries(results))`: one group per distinct path of the kept hits, in first-appearance order, each listing that path's infos in arrival order |
| FileGrouping.QuietHitsAreDropped | src/utils/response_transformer.py:54-99 | a hit that is not fully readable but does not raise is dropped (a folder, or one without a path), or, when only its unread end is unreadable, filed without line numbers |
| FileGrouping.FirstRaisedIsFirst | src/utils/response_transformer.py:54-66 | grouping raises exactly when some hit raises, and with the message of the first one |
| FileGrouping.FirstRaisedPrefix | src/utils/response_transformer.py:54 | once a hit has raised, the hits after it are never read |
| FileGrouping.IndexOfPath | src/utils/response_transformer.py:70 | the position of the path among the keys, or the key count when the path is absent |
| StartLineSort.SortByStart | src/utils/response_transformer.py:162 | the sort is a permutation of the hits |
| StartLineSort.SortIsSorted | src/utils/response_transformer.py:162 | hits are ordered by start line, a missing one counting as 0 |
| StartLineSort.SortIsStable | src/utils/response_transformer.py:162 | hits with equal keys keep their arrival order |
| Markup.UnescapeEscape | src/utils/response_transformer.py:143 | escaping loses nothing: unescaping gives the text back |
| Markup.EscapeIsSafe | src/utils/response_transformer.py:143 | `Escape` replaces `&`, `<`, `>`, `"` and `'` by their entities and keeps every other character: no `<`, `>`, `"` or `'` survives; every `&` of the output begins one of `&amp;`, `&lt;`, `&gt;`, `&quot;`, `&#x27;`; escaping never shortens |
| Markup.EscapeKeepsLines | src/utils/response_transformer.py:204-207 | line i of the escaped text is the escaped line i |
| Markup.EscapeAppend | src/utils/response_transformer.py:204 | escaping distributes over concatenation |
| Strings.JoinSplit | src/utils/response_transformer.py:207 | joining the pieces of a split with the same separator gives the text back |
| Strings.SplitLinesJoin | src/utils/response_transformer.py:213 | newline-free lines joined by "\n" split back into the same lines |
| Strings.SeveralLinesIffNewline | src/utils/response_transformer.py:206 | the text has two or more lines exactly when it contains a newline |
| Strings.IntRoundTrip | src/utils/response_transformer.py:146-148 | a rendered line number reads back to the same integer |
| Strings.StripEmptyIffBlank | src/tools/search.py:178 | `strip()` is empty exactly when every character is whitespace |
| Strings.LowerAsciiIdempotent | src/tools/search.py:185 | lower-casing twice is lower-casing once, and no upper-case letter remains |
| ReferenceXml.Attributes | src/utils/response_transformer.py:141-152 | one to four attributes, the escaped path always first |
| ReferenceXml.AttributePresence | src/utils/response_transformer.py:145-150 | startLine, endLine and kind appear exactly when the line is present or the kind is truthy; only the first attribute is the path |
| ReferenceXml.AttributesReadBack | src/utils/response_transformer.py:141-152 | every value is free of quotes and angle brackets, and reads back to the field it came from |
| ReferenceXml.BuildXmlWithoutContent | src/utils/response_transformer.py:113-124 | the loop produces `ReferenceDocument`: `<results>`, one self-closing `<search_result>` element per grouped hit, group after group, and `</results>`, joined by newlines |
| ReferenceXml.OneLinePerHit | src/utils/response_transformer.py:118-121 | one element per grouped hit |
| ReferenceXml.LinePosition | src/utils/response_transformer.py:118-121 | hit j of group g is rendered at its position in group-then-arrival order |
| ReferenceXml.NoHitsDocument | src/utils/response_transformer.py:115-124 | no groups give the two tags on two lines |
| ReferenceXml.ReferenceIgnoresText | src/utils/response_transformer.py:113-124 | no content or snippet reaches the reference document |
| ReferenceXml.LinePairsInGroups | src/utils/response_transformer.py:96-101 | every element carries both line attributes or neither |
| ContentXml.FormatContentWithLineNumbers | src/utils/response_transformer.py:202-217 | the loop produces `FormattedContent`: the content is escaped and split into lines; when a start line is given and the content has a newline, line i becomes three spaces, the number start + i, `|` and the line; otherwise it becomes three spaces and the line; the lines are joined by newlines |
| ContentXml.FormattedLines | src/utils/response_transformer.py:202-217 | one output line per input line, escaped behind `   n|` numbering from the start when there is a start and several lines, else three spaces |
| ContentXml.FormattedLinesReadBack | src/utils/response_transformer.py:202-217 | each output line, without its prefix, unescapes to its input line |
| ContentXml.Min | src/utils/response_transformer.py:182 | the least collected line |
| ContentXml.Max | src/utils/response_transformer.py:183 | the greatest collected line |
| ContentXml.CollectHits | src/utils/response_transformer.py:162-172 | the loop collects each hit's content or snippet and its known start and end lines, in sorted order, and notes whether any text was found |
| ContentXml.BuildFileXmlWithContent | src/utils/response_transformer.py:155-199 | the loop over the sorted hits produces `FileElement`: nothing when no hit has content or snippet; otherwise the opening `<search_result>` tag with the escaped path and, when any line is known, the least and greatest line as startLine and endLine; then the hits' texts in start-line order, joined by newlines and formatted from the numbering start; then the closing tag |
| ContentXml.FileElementShape | src/utils/response_transformer.py:162-199 | a file is omitted exactly when no hit has text; otherwise it is the opening tag, the formatted joined texts and the closing tag |
| ContentXml.FileLineRange | src/utils/response_transformer.py:181-186 | startLine and endLine are the least and greatest of all the file's lines in any arrival order; without lines only the path is given |
| ContentXml.SortingKeepsLines | src/utils/response_transformer.py:162-173 | sorting changes the order of the collected lines, not which lines they are |
| ContentXml.NumberingStartIsLeastStart | src/utils/response_transformer.py:192-195 | numbering starts at the file's least start line, and only when the hit that arrived first has a start line |
| ContentXml.BuildXmlWithContent | src/utils/response_transformer.py:127-138 | the loop produces `ContentDocument`: `<results>`, the three parts of every file element that has text, in group order, and `</results>`, joined by newlines |
| ContentXml.ElementCount | src/utils/response_transformer.py:132-135 | each file with text adds exactly three parts (opening tag, body, closing tag), and every other file adds none |
| ContentXml.FilesWithTextArePaths | src/utils/response_transformer.py:132-135 | every file element belongs to a group |
| ContentXml.OneElementPerFile | src/utils/response_transformer.py:132-135 | with distinct group paths, no file gets two elements |
| ResponseTransformer.OneFileElementPerPath | src/utils/response_transformer.py:33-37 | in content mode the grouped hits give at most one element per file path |
| ContentXml.NoTextDocument | src/utils/response_transformer.py:127-138 | with no text anywhere, the document is the two tags on two lines |
| ResponseTransformer.TransformSearchResponseToXml | src/utils/response_transformer.py:8-39 | the transformer raises exactly as the grouping of its hits does; otherwise it returns `Transformed`: `<results></results>` when the response has no hits, else the grouping of the kept hits rendered as `ContentDocument` with the content flag and as `ReferenceDocument` without it |
| ResponseTransformer.RaisingIffUnreadableHit | src/utils/response_transformer.py:25-33 | the transformer raises exactly when the response has hits and one of them raises; all-readable hits never raise |
| ResponseTransformer.UnreadEndKeepsHit | src/utils/response_transformer.py:95-101 | a hit whose end is not an object but whose start has no line does not raise and gets an element with no line attributes |
| ResponseTransformer.NullLocationRaises | src/utils/response_transformer.py:79 | a non-folder hit with a null location raises, whatever its identifier |
| ResponseTransformer.EmptyAnswerIffNoHits | src/utils/response_transformer.py:25-30 | `<results></results>` comes exactly from a non-object, a missing or null results member or an empty array |
| ResponseTransformer.NoEntries | src/utils/response_transformer.py:54-64 | no hit survives exactly when every hit is a folder or has no path |
| ResponseTransformer.DocumentIsNotEmpty | src/utils/response_transformer.py:25-39 | a document built from groups never equals the empty-results answer |
| ResponseTransformer.AllHitsDropped | src/utils/response_transformer.py:33-39 | when every hit is dropped, both modes give the two tags on two lines |
| ResponseTransformer.ReferenceLineCount | src/utils/response_transformer.py:113-124 | the reference document has one element per kept hit |
| Search.NormalizedMode | src/tools/search.py:185-190 | the mode sent is always one of auto, fast and deep |
| Search.ModeNormalization | src/tools/search.py:185-190 | a missing or empty mode is auto; a known mode is matched case-insensitively; an unknown one is auto; normalising is idempotent |
| Search.BuildParams | src/tools/search.py:199-209 | the loop builds the query, mode and flag parameters, then one Names parameter per non-empty name |
| Search.NameParamsAppend | src/tools/search.py:207-209 | names are handled one by one: the parameters of a concatenation are concatenated |
| Search.NameParamsAreTheNames | src/tools/search.py:207-209 | every non-empty name gives a Names parameter, and no parameter is empty or outnumbers the names |
| Search.ParamsShape | src/tools/search.py:199-209 | query, normalised mode and content flag come first, in that order, then the names |
| Search.Respond | src/tools/search.py:229-241 | after the request, a failure or an exception of the transformer gives the error element; otherwise the transformed document |
| Search.CodebaseSearch | src/tools/search.py:178-241 | the tool returns `SearchAnswer`: the fixed empty-query error for a blank query, with no request; otherwise the answer to the request with `Params`, which are query, normalised mode, content flag and one Names per non-empty name. A failure, or a body the transformer raises on, gives `SearchError`: the not-found text for a 404, else handle_api_error's text for "code search", inside `<error>`. Any other body gives `Transformed` |
| Search.BlankQueryNoRequest | src/tools/search.py:178-179 | an empty or whitespace-only query gets the fixed error whatever the server would do |
| Search.SearchSuccess | src/tools/search.py:229-235 | a successful search whose hits do not raise answers with the transformed body |
| Search.SearchUnreadableHit | src/tools/search.py:232-241 | a body the transformer raises on answers with handle_api_error's non-HTTP text inside `<error>` |
| Search.UnreadEndAnswer | src/tools/search.py:229-235 | a hit with an empty start and a null end is answered with the reference document of its path, not an error |
| Search.NullLocationAnswer | src/tools/search.py:232-241 | a hit with a null location and a usable identifier gives the error element, not a document |
| Search.SearchFailure | src/tools/search.py:237-241 | a failure answers with the error inside `<error>`; a 404 gets the fixed not-found text |
| Chat.PayloadFor | src/tools/chat.py:87-96 | messages and stream=true are always sent; conversationId only when truthy; dataSources, as their records, only when non-empty |
| Chat.EffectOf | src/tools/chat.py:125-140 | non-data lines are skipped; `[DONE]` stops; undecodable chunks are skipped; a chunk whose lookup raises aborts; delta content is appended |
| Chat.DrainStream | src/tools/chat.py:124-140 | the loop's outcome is `Drain`: the text appended before `data: [DONE]` when the marker comes, all appended text when the lines run out, or the reason of the first chunk whose lookup raises |
| Chat.PrependPrepend | src/tools/chat.py:138 | appending two pieces of text one after the other is appending their concatenation |
| Chat.DrainAppend | src/tools/chat.py:125-140 | the second part of a stream is read only when the first ran out, and its text follows the first's |
| Chat.IgnoredLine | src/tools/chat.py:126-140 | a skipped line contributes nothing wherever it stands |
| Chat.DoneEndsTheStream | src/tools/chat.py:131-132 | nothing after the marker is read, and the text gathered before it is the answer |
| Chat.ErrorAnswer | src/tools/chat.py:143-147 | a 404 gives the fixed not-found text; any other error gives handle_api_error's text |
| Chat.Answer | src/tools/chat.py:141 | gathered text is returned as is; empty text gives the fixed no-content text |
| Chat.Respond | src/tools/chat.py:123-147 | after the request, the stream is read into the answer, or what was raised becomes the error text |
| Chat.ChatCompletions | src/tools/chat.py:14-147 | the tool returns `ChatAnswer`: the fixed error when there are no messages or one lacks a truthy role or content, with no request; otherwise the answer to the request with `PayloadFor`. A failed request, a chunk whose lookup raised, or an exception after the last line gives `ErrorAnswer`; otherwise the answer is the text `Drain` gathers, or the no-content text when it is empty |
| Chat.NoMessagesNoRequest | src/tools/chat.py:74-75 | without messages, the answer is the fixed error whatever the server would do |
| Chat.InvalidMessageNoRequest | src/tools/chat.py:82-84 | one message without a truthy role or content makes the answer the fixed error |
| Chat.RequestFailure | src/tools/chat.py:143-147 | a failed request answers with the not-found text for a 404, else handle_api_error's |
| Chat.StreamedAnswer | src/tools/chat.py:124-141 | a stream read without an exception answers with its text, or the no-content text when empty |
| Chat.HelloWorldStream | src/tools/chat.py:129-138 | two content chunks are concatenated in order, and the marker ends the stream |
| Chat.HelloWorld | src/tools/chat.py:14-141 | the tool answers the example stream with "Hello world" |
| DataSources.Endpoint | src/tools/datasources.py:82 | the alive endpoint exactly when only ready data sources are asked for, else the all endpoint |
| DataSources.Stripped | src/tools/datasources.py:106-108 | a workspace loses `repositoryIds`; every other entry and every other key is kept with its value |
| DataSources.StrippedIdempotent | src/tools/datasources.py:106-108 | stripping twice is stripping once, so an entry listed twice ends up as if listed once |
| DataSources.WorkspaceWithoutIds | src/tools/datasources.py:107 | an entry without `repositoryIds` passes through unchanged |
| DataSources.RemoveRepositoryIds | src/tools/datasources.py:106-108 | after the in-place loop each listed object holds its stripped fields, even when objects repeat |
| DataSources.GetDataSources | src/tools/datasources.py:82-120 | a failure gives handle_api_error's text; an empty list gives the fixed text; otherwise entries are stripped in place and the answer is the header, the dump and the hint |
| N8nMiddleware.Without | src/middleware/n8n_middleware.py:54 | no remaining key is the removed one, and the key order never grows |
| N8nMiddleware.WithoutMembers | src/middleware/n8n_middleware.py:54 | a key remains exactly when it was there and is not the removed one |
| N8nMiddleware.Kept | src/middleware/n8n_middleware.py:52-55 | no kept key is an extra, and never more keys are kept than there were |
| N8nMiddleware.KeptMembers | src/middleware/n8n_middleware.py:52-55 | a key is kept exactly when it was present and is not an extra |
| N8nMiddleware.Extras | src/middleware/n8n_middleware.py:52-55 | every removed key is an extra, and never more are removed than there were keys |
| N8nMiddleware.ExtrasMembers | src/middleware/n8n_middleware.py:52-55 | a key is in the removed list exactly when it was present and is an extra |
| N8nMiddleware.IndexOf | src/middleware/n8n_middleware.py:54 | the position found holds the key popped, and no earlier position does |
| N8nMiddleware.WithoutExtras | src/middleware/n8n_middleware.py:19 | no extra key remains; every other key is present exactly when it was, with its value |
| N8nMiddleware.ArgumentDict.Pop | src/middleware/n8n_middleware.py:54 | `pop(key, None)` removes the key from the value map and the key order, returning its value or nothing |
| N8nMiddleware.WithoutDistinct | src/middleware/n8n_middleware.py:54 | removing a key that occurs once cuts out exactly its position |
| N8nMiddleware.PopStep | src/middleware/n8n_middleware.py:52-55 | popping an extra key moves the key order on to the next pass |
| N8nMiddleware.KeepStep | src/middleware/n8n_middleware.py:52-53 | passing over another key leaves the key order as it is |
| N8nMiddleware.LoopEnd | src/middleware/n8n_middleware.py:52-55 | after the last pass the dict holds exactly the kept keys, with their old values |
| N8nMiddleware.StripExtras | src/middleware/n8n_middleware.py:49-55 | the loop pops every extra key in key order, leaves the dict holding exactly the kept keys with their old values, and lists the removed keys in order |
| N8nMiddleware.OnCallTool | src/middleware/n8n_middleware.py:36-60 | an argument dict loses exactly the extra keys, in place and in key order, with the removed list; nothing else is touched; the next handler is called after the stripping and receives the kept keys with their old values; a missing or non-dict argument reaches it unchanged |
| N8nMiddleware.ExactNames | src/middleware/n8n_middleware.py:19 | keys matching an extra name only loosely (`session_id`, `myAction`) survive |
| N8nMiddleware.WithoutExtrasIdempotent | src/middleware/n8n_middleware.py:52-55 | stripping twice is stripping once; arguments without extras pass through unchanged |
| N8nMiddleware.KeptAndExtrasPartition | src/middleware/n8n_middleware.py:52-55 | the kept keys and the removed keys together are exactly as many as the keys |

## Left out

- The `ctx` notifications are not modelled: `ctx.info`, `ctx.warning`, `ctx.error`, the request and response logging and the middleware's debug log. They produce no part of any answer.
- The HTTP client, the API key lookup, `urljoin` and `raise_for_status` are not modelled. Each tool takes the outcome of its request as a parameter: the exchange, or the error that was raised.
- `json.loads` of a stream chunk is a parameter of the chat tool. The model keeps only the part of the decoded chunk the loop reads.
- `json.dumps(…, indent=2)` is a parameter of the data-source tool.
- The JSON response body is given in decoded form, as records and objects.
- `normalize_data_source_names` (src/utils) is not part of this model. `codebase_search` receives the names already normalised, and a `None` list is modelled as an empty one.
- Chat streaming: the code reads each `data: ` line as its own chunk and never retries, and the model follows the code. An exception while reading the stream discards the text gathered so far and answers with the error text.
- `ResponseTransformer.Transformed`: a null `results` member is treated like a missing one, as `get("results", [])` followed by `not results` does. A results value that is not an array is not modelled.
- `DataSources.GetDataSources`:
  - Entries are modelled as JSON objects.
  - A decoded body that is a non-list, or a list holding non-objects (whose `.get` would raise into the `except` clause), is not modelled.
- `ResultPaths.Record`: the exceptions modelled are the `AttributeError`s of `.get` on a non-object hit, location, range, start or end. A non-string identifier, path, kind or text, and a non-integer line number, raise later in the source (at `split`, `html.escape` or `min`); the fields are typed, so these are not modelled.
- `Errors.RefOf`: a dict's `id` is modelled as an optional string. Other JSON values under `id` are not modelled.
- `Strings.LowerAscii` and `Strings.Strip`: lower-casing and whitespace stripping cover ASCII only. Python's Unicode case mapping and whitespace classes are not modelled.
- `N8nMiddleware.OnCallTool`: `call_next` is modelled as a function of the arguments it reads from the context when it is called (`SeenArguments`). What else it reads from the context, its side effects and its awaiting are not modelled.
- Python integers, the floats a JSON line number might hold, and Unicode escaping beyond the five characters `html.escape` replaces are not modelled.
