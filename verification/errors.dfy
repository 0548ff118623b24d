/**
 * src/utils/errors.py: the user-facing text for a failed API call, and the
 * conversion of loosely typed data-source references into `{"id": …}` records.
 */
module Errors {
  import opened Wrappers
  import opened Strings

  /** What a tool's `except` clause catches. */
  datatype ApiError =
    | HttpStatus(code: int, detail: string)   // `httpx.HTTPStatusError`: status code and response text
    | Failure(description: string)            // any other exception, as `str(error)`

  /** The fixed message for each status code the source names. */
  const StatusMessages: map<int, string> := map[
    401 := "Authentication error (401): Invalid API key or insufficient permissions",
    403 := "Authorization error (403): You don't have permission to access this resource",
    404 := "Not found error (404): The requested resource could not be found",
    429 := "Rate limit exceeded (429): Too many requests, please try again later",
    500 := "Server error (500): The CodeAlive service encountered an issue",
    502 := "Bad gateway (502): The CodeAlive service is temporarily unavailable",
    503 := "Service unavailable (503): The CodeAlive service is under maintenance"
  ]

  /** Most characters of the server's response text quoted in a fallback message. */
  const DetailLimit: nat := 200

  /** `detail[:200]`. */
  function Excerpt(detail: string): (e: string)
    ensures |e| <= DetailLimit
    ensures |detail| <= DetailLimit ==> e == detail
    ensures |detail| > DetailLimit ==> |e| == DetailLimit
    ensures e <= detail
  {
    if |detail| <= DetailLimit then detail else detail[..DetailLimit]
  }

  /** The message `handle_api_error` logs for an HTTP status error. */
  function StatusMessage(code: int, detail: string): string {
    if code in StatusMessages then StatusMessages[code]
    else if code >= 500 then "Server error (" + IntToDecimal(code) + "): The CodeAlive service encountered an issue"
    else "HTTP error: " + IntToDecimal(code) + " - " + Excerpt(detail)
  }

  /** `handle_api_error(ctx, error, operation)`, without the `ctx.error` notification. */
  function HandleApiError(error: ApiError, operation: string): (r: string)
    ensures |r| >= 7 && r[..7] == "Error: "
    ensures error.HttpStatus? ==> r[7..] == StatusMessage(error.code, error.detail)
    ensures error.Failure? ==>
      r == "Error: Error during " + operation + ": " + error.description + ". Please check your input parameters and try again."
  {
    match error
    case HttpStatus(code, detail) => "Error: " + StatusMessage(code, detail)
    case Failure(description) =>
      "Error: Error during " + operation + ": " + description + ". Please check your input parameters and try again."
  }

  /** Any other status from 500 up gets the generic server-error message; the response text is not quoted. */
  lemma UnknownServerStatus(code: int, detail: string)
    requires code !in StatusMessages && code >= 500
    ensures StatusMessage(code, detail)
      == "Server error (" + IntToDecimal(code) + "): The CodeAlive service encountered an issue"
  {
  }

  /** Any other status below 500 quotes the first 200 characters of the response text, or all of a shorter one. */
  lemma UnknownClientStatus(code: int, detail: string)
    requires code !in StatusMessages && code < 500
    ensures exists e ::
      && e <= detail
      && |e| <= DetailLimit
      && (|detail| <= DetailLimit ==> e == detail)
      && (|detail| > DetailLimit ==> |e| == DetailLimit)
      && StatusMessage(code, detail) == "HTTP error: " + IntToDecimal(code) + " - " + e
  {
    var e := Excerpt(detail);
    assert StatusMessage(code, detail) == "HTTP error: " + IntToDecimal(code) + " - " + e;
  }

  lemma {:induction false} NatToDecimalLength(n: nat, bound: nat)
    requires n < bound
    ensures bound == 1000 ==> |NatToDecimal(n)| <= 3
    decreases n
  {
    if n >= 10 && bound == 1000 {
      NatToDecimalLength(n / 10, 100);
      if n / 10 >= 10 {
        NatToDecimalLength(n / 100, 10);
        assert |NatToDecimal(n / 10)| == 2;
      }
    }
  }

  /** For any three-digit status code, whatever the response text, the message stays under 300 characters. */
  lemma StatusErrorIsShort(code: int, detail: string, operation: string)
    requires 100 <= code <= 999
    ensures |HandleApiError(HttpStatus(code, detail), operation)| < 300
  {
    NatToDecimalLength(code, 1000);
    if code in StatusMessages {
      assert forall c | c in StatusMessages :: |StatusMessages[c]| < 100;
    }
  }

  /** One entry of the `data_sources` list as the caller passes it. */
  datatype DataSourceItem =
    | IdString(s: string)            // a plain string id
    | IdObject(id: Option<string>)   // a dict; `id` is its "id" key, other keys do not matter
    | OtherItem                      // None, a number, a list, …

  /** The `{"id": …}` record sent to the API. */
  datatype DataSourceRef = DataSourceRef(id: string)

  /** The record one item turns into, if any: a non-empty string, or a dict with a truthy id. */
  function RefOf(item: DataSourceItem): (r: Option<DataSourceRef>)
    ensures r.Some? ==> r.value.id != ""
    ensures item.IdString? ==> (r.Some? <==> item.s != "") && (r.Some? ==> r.value.id == item.s)
    ensures item.IdObject? ==> (r.Some? <==> item.id.Some? && item.id.value != "") && (r.Some? ==> r.value.id == item.id.value)
    ensures item.OtherItem? ==> r.None?
  {
    match item
    case IdString(s) => if s != "" then Some(DataSourceRef(s)) else None
    case IdObject(id) => if id.Some? && id.value != "" then Some(DataSourceRef(id.value)) else None
    case OtherItem => None
  }

  /** The records of the items that have one, in input order. */
  function Refs(items: seq<DataSourceItem>): seq<DataSourceRef>
    decreases |items|
  {
    if items == [] then []
    else
      var last := RefOf(items[|items| - 1]);
      Refs(items[..|items| - 1]) + (if last.Some? then [last.value] else [])
  }

  /** Conversion works item by item: the records of a concatenation are concatenated. */
  lemma {:induction false} RefsAppend(a: seq<DataSourceItem>, b: seq<DataSourceItem>)
    ensures Refs(a + b) == Refs(a) + Refs(b)
    decreases |b|
  {
    if b == [] {
      assert a + b == a;
    } else {
      var b' := b[..|b| - 1];
      RefsAppend(a, b');
      assert (a + b)[..|a + b| - 1] == a + b';
      assert (a + b)[|a + b| - 1] == b[|b| - 1];
    }
  }

  /** Never more records than items, and each record holds a non-empty id taken from an item. */
  lemma {:induction false} RefsBounded(items: seq<DataSourceItem>)
    ensures |Refs(items)| <= |items|
    ensures forall r :: r in Refs(items) ==> r.id != "" && exists i :: 0 <= i < |items| && RefOf(items[i]) == Some(r)
    decreases |items|
  {
    if items != [] {
      var init := items[..|items| - 1];
      RefsBounded(init);
      forall r | r in Refs(items)
        ensures r.id != "" && exists i :: 0 <= i < |items| && RefOf(items[i]) == Some(r)
      {
        if r in Refs(init) {
          var i :| 0 <= i < |init| && RefOf(init[i]) == Some(r);
          assert items[i] == init[i];
        } else {
          assert RefOf(items[|items| - 1]) == Some(r);
        }
      }
    }
  }

  /** `format_data_source_ids(data_sources)`: the loop that appends one record per usable item. */
  method FormatDataSourceIds(dataSources: Option<seq<DataSourceItem>>) returns (formatted: seq<DataSourceRef>)
    ensures dataSources.None? ==> formatted == []
    ensures dataSources.Some? ==> formatted == Refs(dataSources.value)
  {
    formatted := [];
    if dataSources.None? || |dataSources.value| == 0 {
      return;
    }
    var items := dataSources.value;
    for i := 0 to |items|
      invariant formatted == Refs(items[..i])
    {
      TakeOneMore(items, i);
      match items[i]
      case IdString(s) =>
        if s != "" { formatted := formatted + [DataSourceRef(s)]; }
      case IdObject(id) =>
        if id.Some? && id.value != "" { formatted := formatted + [DataSourceRef(id.value)]; }
      case OtherItem =>
    }
    Whole(items);
  }
}
