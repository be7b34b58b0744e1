/** Parsed JSON as Gson exposes it, and the Gson accessors the reviewer calls.

    Parsing and serialising text are not modelled: responses arrive here
    already parsed. Each accessor that Gson would make throw (a missing member
    read through a null reference, a cast to the wrong element kind) yields a
    `Malformed` error instead. */
module Json {
  import opened Results

  datatype JsonValue =
    | JNull
    | JBool(b: bool)
    /** A number keeps the text it was written with, as Gson's lazily parsed numbers do. */
    | JNumber(lexeme: string)
    | JString(s: string)
    | JArray(items: seq<JsonValue>)
    | JObject(fields: map<string, JsonValue>)

  /** `JsonElement.getAsString`: strings and other primitives give their text,
      a one-element array gives its element's text, and null, objects and
      other arrays fail. */
  function AsString(v: JsonValue): (r: Result<string>)
    ensures v.JString? ==> r == Ok(v.s)
    ensures v.JNull? || v.JObject? ==> r.Err?
  {
    match v
    case JString(s) => Ok(s)
    case JNumber(lexeme) => Ok(lexeme)
    case JBool(b) => Ok(if b then "true" else "false")
    case JArray(items) =>
      if |items| == 1 then AsString(items[0]) else Err(Malformed("getAsString on an array"))
    case JNull => Err(Malformed("getAsString on JSON null"))
    case JObject(_) => Err(Malformed("getAsString on an object"))
  }

  /** `obj.get(key).getAsString()`: an absent member is a null reference. */
  function MemberAsString(fields: map<string, JsonValue>, key: string): (r: Result<string>)
    ensures key !in fields ==> r.Err?
    ensures key in fields && fields[key].JString? ==> r == Ok(fields[key].s)
  {
    if key in fields then AsString(fields[key]) else Err(Malformed("missing member " + key))
  }

  /** `JsonElement.getAsJsonObject`. */
  function AsObject(v: JsonValue): (r: Result<map<string, JsonValue>>)
    ensures r.Ok? <==> v.JObject?
    ensures v.JObject? ==> r.value == v.fields
  {
    if v.JObject? then Ok(v.fields) else Err(Malformed("not a JSON object"))
  }

  /** `JsonObject.getAsJsonArray(key)`: an absent member is a null reference. */
  function MemberAsArray(fields: map<string, JsonValue>, key: string): (r: Result<seq<JsonValue>>)
    ensures r.Ok? <==> key in fields && fields[key].JArray?
    ensures r.Ok? ==> r.value == fields[key].items
  {
    if key in fields && fields[key].JArray? then Ok(fields[key].items)
    else Err(Malformed("missing array member " + key))
  }
}

/** HTTP exchanges as OkHttp performs them, with the transport as an oracle. */
module Http {
  import opened Results
  import opened Json

  datatype Method = Get | Post

  datatype Header = Header(name: string, value: string)

  datatype Request = Request(verb: Method, url: string, headers: seq<Header>, body: Option<JsonValue>)

  /** A response whose body is `None` when it is empty or not JSON. */
  datatype Response = Response(code: int, reason: string, body: Option<JsonValue>)

  /** `Response.isSuccessful`: a 2xx status. */
  predicate IsSuccessful(r: Response) {
    200 <= r.code < 300
  }

  /** One blocking call: a response of any status, or a transport failure (connection, timeout). */
  type Transport = Request -> Result<Response>
}
