/**
  Credentials kept out of the logs (src/redact.py:55-77,115-190). A dictionary is its
  entries in order, with distinct keys; how a URL is parsed and str.lower are parameters.
 */
module Redact {
  import opened Text

  datatype Json =
    | Null
    | Bool(b: bool)
    | Num(n: real)
    | Str(s: string)
    | Arr(items: seq<Json>)
    | Obj(fields: seq<Field>)

  datatype Field = Field(key: string, value: Json)

  /** redact.url on a string, and str.lower. */
  datatype Lib = Lib(url: string -> string, lower: string -> string)

  const REDACTED := Str("<redacted>")

  predicate Truthy(v: Json) {
    v != Null && v != Bool(false) && v != Num(0.0) && v != Str("") && v != Arr([]) && v != Obj([])
  }

  predicate IsSecret(key: string) { key == "password" || key == "turnstile_token" }

  predicate IsCredential(lib: Lib, header: string) {
    var h := lib.lower(header);
    h == "cookie" || h == "set-cookie" || h == "authorization" || h == "proxy-authorization"
  }

  /** A shape a rule does not expect, but with nothing in it. */
  predicate IsBlank(v: Json) { v == Null || v == Str("") || v == Arr([]) || v == Obj([]) }

  // ---- strings ----

  function ProxyUrl(lib: Lib, s: string): string {
    if s == "" then s
    else if lib.url(s) != s then lib.url(s)
    else if LooksLikeUserinfo(s) then REDACTED.s
    else s
  }

  predicate LooksLikeUserinfo(s: string) {
    var at := IndexOf(s, '@');
    at < |s| && ':' in s[..at]
  }

  function FormPair(pair: string): string {
    var i := IndexOf(pair, '=');
    if i < |pair| then pair[..i] + "=" + REDACTED.s else pair
  }

  function FormPairs(pairs: seq<string>): string {
    if pairs == [] then ""
    else if |pairs| == 1 then FormPair(pairs[0])
    else FormPair(pairs[0]) + "&" + FormPairs(pairs[1..])
  }

  function Form(s: string): string {
    if s == "" then s else FormPairs(Split(s, '&'))
  }

  // ---- fields with rules of their own ----

  function Hidden(fields: seq<Field>): seq<Field> {
    seq(|fields|, i requires 0 <= i < |fields| => Field(fields[i].key, REDACTED))
  }

  function Cookie(c: Json): Json {
    if c.Obj?
    then Obj(seq(|c.fields|, i requires 0 <= i < |c.fields| =>
           if c.fields[i].key == "value" then Field("value", REDACTED) else c.fields[i]))
    else REDACTED
  }

  function Cookies(v: Json): Json {
    match v
    case Arr(items) => Arr(seq(|items|, i requires 0 <= i < |items| => Cookie(items[i])))
    case Obj(fields) => Obj(Hidden(fields))
    case Str(_) => REDACTED
    case _ => v
  }

  function Headers(lib: Lib, v: Json): Json {
    if v.Obj?
    then Obj(seq(|v.fields|, i requires 0 <= i < |v.fields| =>
           if IsCredential(lib, v.fields[i].key) then Field(v.fields[i].key, REDACTED) else v.fields[i]))
    else if IsBlank(v) then v
    else REDACTED
  }

  function PostData(v: Json): Json {
    match v
    case Str(s) => Str(Form(s))
    case Obj(fields) => Obj(Hidden(fields))
    case Arr(_) => REDACTED
    case _ => v
  }

  // ---- the walk ----

  function Body(lib: Lib, v: Json): Json
    decreases v
  {
    match v
    case Arr(items) => Arr(seq(|items|, i requires 0 <= i < |items| => Body(lib, items[i])))
    case Obj(fields) =>
      Obj(seq(|fields|, i requires 0 <= i < |fields| => Field(fields[i].key, BodyField(lib, fields[i]))))
    case _ => v
  }

  function BodyField(lib: Lib, f: Field): Json
    decreases f
  {
    if IsSecret(f.key) && Truthy(f.value) then REDACTED
    else if f.key == "cookies" then Cookies(f.value)
    else if f.key == "headers" then Headers(lib, f.value)
    else if f.key == "postData" then PostData(f.value)
    else if f.key == "proxy" then Proxy(lib, f.value)
    else if f.key == "url" then Url(lib, f.value)
    else Body(lib, f.value)
  }

  function Url(lib: Lib, v: Json): Json {
    if v.Str? then Str(lib.url(v.s)) else v
  }

  function Proxy(lib: Lib, v: Json): Json
    decreases v
  {
    match v
    case Str(s) => Str(ProxyUrl(lib, s))
    case Obj(fields) =>
      Obj(seq(|fields|, i requires 0 <= i < |fields| => Field(fields[i].key, ProxyField(lib, fields[i]))))
    case _ => if IsBlank(v) then v else REDACTED
  }

  function ProxyField(lib: Lib, f: Field): Json
    decreases f
  {
    if IsSecret(f.key) && Truthy(f.value) then REDACTED
    else if f.key == "url" then (if f.value.Str? then Str(ProxyUrl(lib, f.value.s)) else REDACTED)
    else Body(lib, f.value)
  }

  // ---- the code's loops ----

  method LogBody(lib: Lib, obj: Json) returns (out: Json)
    ensures out == Body(lib, obj)
    decreases obj
  {
    if obj.Arr? {
      var items: seq<Json> := [];
      for i := 0 to |obj.items|
        invariant items == Body(lib, obj).items[..i]
      {
        var item := LogBody(lib, obj.items[i]);
        items := items + [item];
      }
      return Arr(items);
    }
    if !obj.Obj? {
      return obj;
    }
    var fields: seq<Field> := [];
    for i := 0 to |obj.fields|
      invariant fields == Body(lib, obj).fields[..i]
    {
      var key, value := obj.fields[i].key, obj.fields[i].value;
      var logged;
      if IsSecret(key) && Truthy(value) {
        logged := REDACTED;
      } else if key == "cookies" {
        logged := Cookies(value);
      } else if key == "headers" {
        logged := Headers(lib, value);
      } else if key == "postData" {
        logged := PostData(value);
      } else if key == "proxy" {
        logged := LogProxy(lib, value);
      } else if key == "url" {
        logged := Url(lib, value);
      } else {
        logged := LogBody(lib, value);
      }
      fields := fields + [Field(key, logged)];
    }
    return Obj(fields);
  }

  method LogProxy(lib: Lib, value: Json) returns (out: Json)
    ensures out == Proxy(lib, value)
    decreases value
  {
    if value.Str? {
      return Str(ProxyUrl(lib, value.s));
    }
    if !value.Obj? {
      return if IsBlank(value) then value else REDACTED;
    }
    var fields: seq<Field> := [];
    for i := 0 to |value.fields|
      invariant fields == Proxy(lib, value).fields[..i]
    {
      var key, item := value.fields[i].key, value.fields[i].value;
      var logged;
      if IsSecret(key) && Truthy(item) {
        logged := REDACTED;
      } else if key == "url" {
        logged := if item.Str? then Str(ProxyUrl(lib, item.s)) else REDACTED;
      } else {
        logged := LogBody(lib, item);
      }
      fields := fields + [Field(key, logged)];
    }
    return Obj(fields);
  }
}
