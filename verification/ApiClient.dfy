/** The pure parts of QuickCodeApiClient: the base address, the error message drawn from a
    failed response, and what a request yields from a status, a body and its decoding. HTTP
    and JSON parsing are outside the model: the parsed document and the decoded result are
    parameters. */
module ApiClient {
  import opened Common

  /** The base address handed to `HttpClient`: a '/' is appended when missing. */
  function NormalizeBaseUrl(url: string): (r: string)
    ensures |r| > 0 && r[|r| - 1] == '/'
    ensures |url| <= |r| <= |url| + 1 && r[..|url|] == url
    ensures url != [] && url[|url| - 1] == '/' ==> r == url
  {
    if url != [] && url[|url| - 1] == '/' then url else url + "/"
  }

  /** Normalising an address twice is normalising it once. */
  lemma NormalizeBaseUrlIdempotent(url: string)
    ensures NormalizeBaseUrl(NormalizeBaseUrl(url)) == NormalizeBaseUrl(url)
  {
  }

  /** A JSON value as the error extraction sees it: strings, null, objects (properties in
      document order) and everything else. */
  datatype Json = JString(s: string) | JNull | JObject(props: seq<(string, Json)>) | JOther

  /** `JsonDocument.Parse` of the body: a document, or a parse that throws. */
  datatype ParsedBody = Unparseable | Parsed(root: Json)

  /** `TryGetProperty` on an object: the exact (case-sensitive) name; among repeated names the
      last one counts. */
  function LastProperty(props: seq<(string, Json)>, name: string): (r: Option<Json>)
    ensures r.Some? <==> exists i :: 0 <= i < |props| && props[i].0 == name
    ensures r.Some? ==> exists i :: 0 <= i < |props| && props[i] == (name, r.value)
                                    && forall j :: i < j < |props| ==> props[j].0 != name
  {
    if props == [] then None
    else
      var n := |props| - 1;
      if props[n].0 == name then Some(props[n].1)
      else
        var r := LastProperty(props[..n], name);
        PropertyInPrefix(props, name, r);
        r
  }

  /** What the search of all but the last property says about the whole object, when the last
      property has another name. */
  lemma PropertyInPrefix(props: seq<(string, Json)>, name: string, r: Option<Json>)
    requires props != [] && props[|props| - 1].0 != name
    requires var front := props[..|props| - 1];
             && (r.Some? <==> exists i :: 0 <= i < |front| && front[i].0 == name)
             && (r.Some? ==> exists i :: 0 <= i < |front| && front[i] == (name, r.value)
                                         && forall j :: i < j < |front| ==> front[j].0 != name)
    ensures r.Some? <==> exists i :: 0 <= i < |props| && props[i].0 == name
    ensures r.Some? ==> exists i :: 0 <= i < |props| && props[i] == (name, r.value)
                                    && forall j :: i < j < |props| ==> props[j].0 != name
  {
    var n := |props| - 1;
    var front := props[..n];
    if r.Some? {
      var i :| 0 <= i < n && front[i] == (name, r.value) && forall j :: i < j < n ==> front[j].0 != name;
      assert props[i] == front[i];
      forall j | i < j < |props|
        ensures props[j].0 != name
      {
        if j < n {
          assert props[j] == front[j];
        }
      }
    } else {
      forall i | 0 <= i < |props|
        ensures props[i].0 != name
      {
        if i < n {
          assert props[i] == front[i];
        }
      }
    }
  }

  function DefaultMessage(statusCode: int): string
  {
    "API error (" + IntToString(statusCode) + ")."
  }

  /** The body shown when nothing better is found: at most 500 UTF-16 units of it, then
      "...". */
  function Shortened(content: string): (r: string)
    ensures Utf16Length(content) <= 500 ==> r == content
    ensures Utf16Length(content) > 500 ==>
              && 3 <= |r| < |content| + 3 && r[|r| - 3..] == "..."
              && r[..|r| - 3] == content[..|r| - 3]
              && 499 <= Utf16Length(r[..|r| - 3]) <= 500
              && 502 <= Utf16Length(r) <= 503
  {
    if Utf16Length(content) > 500 then
      var cut := Truncate(content, 500);
      TruncateUnits(content, 500);
      Utf16LengthAppend(cut, "...");
      Utf16LengthBmp("...");
      assert (cut + "...")[..|cut|] == cut;
      cut + "..."
    else content
  }

  /** The value of a "message" or "error" property: its text, the default message for null,
      and for any other kind `GetString` throws, so the shortened body. */
  function PropertyMessage(v: Json, content: string, statusCode: int): string
  {
    match v
    case JString(s) => s
    case JNull => DefaultMessage(statusCode)
    case _ => Shortened(content)
  }

  /** `ExtractErrorMessage`: a blank body gives the default message; a JSON string body gives
      the string; an object gives its "message", else its "error"; anything else (no JSON, an
      array, a number, an object with neither property) gives the shortened body. */
  function ExtractErrorMessage(content: Option<string>, statusCode: int, doc: ParsedBody): (r: string)
    ensures IsNullOrBlank(content) ==> r == DefaultMessage(statusCode)
    ensures !IsNullOrBlank(content) && doc.Parsed? && doc.root.JString? ==> r == doc.root.s
    ensures !IsNullOrBlank(content) && (doc.Unparseable? || doc.root.JOther? || doc.root.JNull?) ==>
              r == Shortened(content.value)
  {
    if IsNullOrBlank(content) then DefaultMessage(statusCode)
    else match doc
      case Parsed(JString(s)) => s
      case Parsed(JObject(props)) =>
        (match LastProperty(props, "message")
         case Some(v) => PropertyMessage(v, content.value, statusCode)
         case None =>
           (match LastProperty(props, "error")
            case Some(v) => PropertyMessage(v, content.value, statusCode)
            case None => Shortened(content.value)))
      case _ => Shortened(content.value)
  }

  /** `props` has a property `name`, and the last one holds `v`. */
  predicate LastIs(props: seq<(string, Json)>, name: string, v: Json)
  {
    exists i :: 0 <= i < |props| && props[i] == (name, v) && forall j :: i < j < |props| ==> props[j].0 != name
  }

  /** The last property of a name is the one `TryGetProperty` finds. */
  lemma LastIsFound(props: seq<(string, Json)>, name: string, v: Json)
    requires LastIs(props, name, v)
    ensures LastProperty(props, name) == Some(v)
  {
    var i :| 0 <= i < |props| && props[i] == (name, v) && forall j :: i < j < |props| ==> props[j].0 != name;
    var r := LastProperty(props, name);
    assert r.Some?;
    var k :| 0 <= k < |props| && props[k] == (name, r.value) && forall j :: k < j < |props| ==> props[j].0 != name;
    assert k == i;
  }

  /** An object whose last "message" property is a string reports that string, whatever its
      "error" property says. */
  lemma MessageBeforeError(content: string, statusCode: int, props: seq<(string, Json)>, text: string)
    requires !IsBlank(content)
    requires LastIs(props, "message", JString(text))
    ensures ExtractErrorMessage(Some(content), statusCode, Parsed(JObject(props))) == text
  {
    LastIsFound(props, "message", JString(text));
  }

  /** Without a "message" property, the last "error" property, when a string, is reported. */
  lemma ErrorWithoutMessage(content: string, statusCode: int, props: seq<(string, Json)>, text: string)
    requires !IsBlank(content)
    requires forall j :: 0 <= j < |props| ==> props[j].0 != "message"
    requires LastIs(props, "error", JString(text))
    ensures ExtractErrorMessage(Some(content), statusCode, Parsed(JObject(props))) == text
  {
    LastIsFound(props, "error", JString(text));
  }

  /** The property consulted ("message", or "error" when there is no "message") holding null
      gives the default message; holding an object or another non-string kind makes
      `GetString` throw, and the catch gives the shortened body. */
  lemma PropertyNotString(content: string, statusCode: int, props: seq<(string, Json)>, name: string, v: Json)
    requires !IsBlank(content)
    requires name == "message" || (name == "error" && forall j :: 0 <= j < |props| ==> props[j].0 != "message")
    requires LastIs(props, name, v)
    ensures var r := ExtractErrorMessage(Some(content), statusCode, Parsed(JObject(props)));
            && (v.JNull? ==> r == DefaultMessage(statusCode))
            && (v.JObject? || v.JOther? ==> r == Shortened(content))
  {
    LastIsFound(props, name, v);
  }

  /** An object with neither a "message" nor an "error" property gives the shortened body. */
  lemma NeitherProperty(content: string, statusCode: int, props: seq<(string, Json)>)
    requires !IsBlank(content)
    requires forall j :: 0 <= j < |props| ==> props[j].0 != "message" && props[j].0 != "error"
    ensures ExtractErrorMessage(Some(content), statusCode, Parsed(JObject(props))) == Shortened(content)
  {
  }

  /** A body that is not JSON, or whose root is neither a string nor an object, is shown
      shortened: never empty, at most 503 UTF-16 units, the whole body when it fits in 500. */
  lemma FallbackIsShortPrefix(content: string, statusCode: int, doc: ParsedBody)
    requires !IsBlank(content) && (doc.Unparseable? || (doc.Parsed? && doc.root.JOther?))
    ensures var r := ExtractErrorMessage(Some(content), statusCode, doc);
            Utf16Length(r) <= 503 && r != [] && (Utf16Length(r) <= 500 ==> r == content)
  {
  }

  /** `IsSuccessStatusCode`. */
  predicate IsSuccess(statusCode: int)
  {
    200 <= statusCode <= 299
  }

  /** What a typed request yields: no content, or the decoded value. */
  datatype Reply<T> = NoContent | Value(value: T)

  /** `SendAsync<T>` after `SendAsync`: a failure status throws "HTTP <code> <name>: <message>";
      an empty body (a re-wrapped content of length zero) yields the default value without
      decoding; a body that decodes to JSON null throws "Unexpected empty response from API.".
      `decoded` is the deserialisation of the body, `None` for null. */
  function Send<T>(statusCode: int, statusName: string, body: string, doc: ParsedBody, decoded: Option<T>)
    : (r: Result<Reply<T>, string>)
    ensures !IsSuccess(statusCode) ==> r.Err?
    ensures IsSuccess(statusCode) && body == [] ==> r == Ok(NoContent)
    ensures IsSuccess(statusCode) && body != [] ==> (r.Ok? <==> decoded.Some?)
    ensures r.Ok? && r.value.Value? ==> Some(r.value.value) == decoded
  {
    if !IsSuccess(statusCode) then
      Err("HTTP " + IntToString(statusCode) + " " + statusName + ": " + ExtractErrorMessage(Some(body), statusCode, doc))
    else if body == [] then Ok(NoContent)
    else match decoded
      case None => Err("Unexpected empty response from API.")
      case Some(v) => Ok(Value(v))
  }

  /** A failed request's message names the status and ends with the extracted message. */
  lemma FailureMessage<T>(statusCode: int, statusName: string, body: string, doc: ParsedBody, decoded: Option<T>)
    requires !IsSuccess(statusCode)
    ensures var m := ExtractErrorMessage(Some(body), statusCode, doc);
            var r := Send(statusCode, statusName, body, doc, decoded);
            && StartsWith(r.error, "HTTP " + IntToString(statusCode) + " ")
            && r.error[|r.error| - |m|..] == m
  {
    MessageShape(IntToString(statusCode), statusName, ExtractErrorMessage(Some(body), statusCode, doc));
  }

  /** "HTTP <code> <name>: <m>" starts with "HTTP <code> " and ends with `m`. */
  lemma MessageShape(code: string, name: string, m: string)
    ensures var e := "HTTP " + code + " " + name + ": " + m;
            StartsWith(e, "HTTP " + code + " ") && e[|e| - |m|..] == m
  {
    var head := "HTTP " + code + " ";
    var e := "HTTP " + code + " " + name + ": " + m;
    assert e == head + (name + ": " + m);
    assert e == (head + name + ": ") + m;
  }
}
