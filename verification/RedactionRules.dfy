/** The redaction rule by rule, with every name and every replacement spelled out. */
module RedactionRules {
  import opened Text
  import opened Redact
  import opened Redaction

  /** How the value of the i-th field of an object is logged. */
  function Logged(lib: Lib, fields: seq<Field>, i: nat): (out: Json)
    requires i < |fields|
    ensures Body(lib, Obj(fields)).Obj? && |Body(lib, Obj(fields)).fields| == |fields|
    ensures Body(lib, Obj(fields)).fields[i] == Field(fields[i].key, out)
    ensures out == BodyField(lib, fields[i])
  {
    var out := Body(lib, Obj(fields));
    assert out.Obj? && |out.fields| == |fields| && out.fields[i] == Field(fields[i].key, BodyField(lib, fields[i]));
    out.fields[i].value
  }

  // ---- secrets ----

  /** A password or token that is anything at all is replaced, and an empty one is left as it is. */
  lemma SecretIsReplaced(lib: Lib, fields: seq<Field>, i: nat)
    requires i < |fields| && (fields[i].key == "password" || fields[i].key == "turnstile_token")
    ensures var v := fields[i].value;
            Logged(lib, fields, i)
            == if v == Null || v == Bool(false) || v == Num(0.0) || v == Str("") || v == Arr([]) || v == Obj([]) then v
               else Str("<redacted>")
  {
    EmptyStays(lib);
    var v := fields[i].value;
    assert !Truthy(v) ==> Logged(lib, fields, i) == Body(lib, v);
  }

  lemma EmptyStays(lib: Lib)
    ensures Body(lib, Arr([])) == Arr([]) && Body(lib, Obj([])) == Obj([])
    ensures Body(lib, Null) == Null && Body(lib, Str("")) == Str("")
    ensures Body(lib, Bool(false)) == Bool(false) && Body(lib, Num(0.0)) == Num(0.0)
  {
    assert Body(lib, Arr([])).items == [] && Body(lib, Obj([])).fields == [];
  }

  /** Two bodies that differ only in the non-empty value of one such field are logged alike. */
  lemma SecretIsHidden(lib: Lib, before: seq<Field>, key: string, v: Json, w: Json, after: seq<Field>)
    requires key == "password" || key == "turnstile_token"
    requires v !in {Null, Bool(false), Num(0.0), Str(""), Arr([]), Obj([])}
    requires w !in {Null, Bool(false), Num(0.0), Str(""), Arr([]), Obj([])}
    ensures Body(lib, Obj(before + [Field(key, v)] + after)) == Body(lib, Obj(before + [Field(key, w)] + after))
  {
    var a, b := before + [Field(key, v)] + after, before + [Field(key, w)] + after;
    SecretIsReplaced(lib, a, |before|);
    SecretIsReplaced(lib, b, |before|);
    SameButOne(lib, a, b, |before|);
  }

  lemma SameButOne(lib: Lib, a: seq<Field>, b: seq<Field>, n: nat)
    requires n < |a| == |b| && a[n].key == b[n].key && Logged(lib, a, n) == Logged(lib, b, n)
    requires forall i | 0 <= i < |a| && i != n :: a[i] == b[i]
    ensures Body(lib, Obj(a)) == Body(lib, Obj(b))
  {
    assert Body(lib, Obj(a)).fields == Body(lib, Obj(b)).fields;
  }

  // ---- headers ----

  /** Exactly the four credential headers are replaced, whatever the case of their names and whatever they hold. */
  lemma HeaderIsLogged(lib: Lib, fields: seq<Field>, i: nat, j: nat)
    requires i < |fields| && fields[i].key == "headers" && fields[i].value.Obj? && j < |fields[i].value.fields|
    ensures var header := fields[i].value.fields[j]; var name := lib.lower(header.key); var out := Logged(lib, fields, i);
            && out.Obj? && |out.fields| == |fields[i].value.fields|
            && out.fields[j]
               == if name == "cookie" || name == "set-cookie" || name == "authorization" || name == "proxy-authorization"
                  then Field(header.key, Str("<redacted>")) else header
  {
  }

  /** Two bodies that differ only in the value of a credential header are logged alike. */
  lemma CredentialHeaderIsHidden(lib: Lib, before: seq<Field>, after: seq<Field>,
                                 early: seq<Field>, name: string, v: Json, w: Json, late: seq<Field>)
    requires lib.lower(name) in ["cookie", "set-cookie", "authorization", "proxy-authorization"]
    ensures Body(lib, Obj(before + [Field("headers", Obj(early + [Field(name, v)] + late))] + after))
         == Body(lib, Obj(before + [Field("headers", Obj(early + [Field(name, w)] + late))] + after))
  {
    var p, q := early + [Field(name, v)] + late, early + [Field(name, w)] + late;
    var a, b := before + [Field("headers", Obj(p))] + after, before + [Field("headers", Obj(q))] + after;
    var n := |before|;
    HeadersSameButOne(lib, p, q, |early|);
    assert a[n] == Field("headers", Obj(p)) && b[n] == Field("headers", Obj(q));
    SameButOne(lib, a, b, n);
  }

  lemma HeadersSameButOne(lib: Lib, p: seq<Field>, q: seq<Field>, k: nat)
    requires k < |p| == |q| && p[k].key == q[k].key
    requires lib.lower(p[k].key) in ["cookie", "set-cookie", "authorization", "proxy-authorization"]
    requires forall j | 0 <= j < |p| && j != k :: p[j] == q[j]
    ensures Headers(lib, Obj(p)) == Headers(lib, Obj(q))
  {
    var a, b := [Field("headers", Obj(p))], [Field("headers", Obj(q))];
    forall j | 0 <= j < |p| ensures Headers(lib, Obj(p)).fields[j] == Headers(lib, Obj(q)).fields[j] {
      HeaderIsLogged(lib, a, 0, j);
      HeaderIsLogged(lib, b, 0, j);
    }
    assert Headers(lib, Obj(p)).fields == Headers(lib, Obj(q)).fields;
  }

  /** Headers of any other shape go whole, unless there is nothing in them. */
  lemma OddHeadersGoWhole(lib: Lib, fields: seq<Field>, i: nat)
    requires i < |fields| && fields[i].key == "headers" && !fields[i].value.Obj?
    ensures var v := fields[i].value;
            Logged(lib, fields, i) == if v == Null || v == Str("") || v == Arr([]) then v else Str("<redacted>")
  {
  }

  // ---- cookies ----

  lemma CookiesAreLogged(lib: Lib, fields: seq<Field>, i: nat)
    requires i < |fields| && fields[i].key == "cookies"
    ensures var v := fields[i].value; var out := Logged(lib, fields, i);
            match v
            case Str(_) => out == Str("<redacted>")
            case Obj(cookies) =>
              out.Obj? && |out.fields| == |cookies|
              && forall j | 0 <= j < |cookies| :: out.fields[j] == Field(cookies[j].key, Str("<redacted>"))
            case Arr(cookies) =>
              out.Arr? && |out.items| == |cookies|
              && forall j | 0 <= j < |cookies| :: !cookies[j].Obj? ==> out.items[j] == Str("<redacted>")
            case _ => out == v
  {
  }

  /** In a list, a cookie keeps everything but its value. */
  lemma CookieIsLogged(lib: Lib, fields: seq<Field>, i: nat, j: nat, k: nat)
    requires i < |fields| && fields[i].key == "cookies" && fields[i].value.Arr? && j < |fields[i].value.items|
    requires fields[i].value.items[j].Obj? && k < |fields[i].value.items[j].fields|
    ensures var part := fields[i].value.items[j].fields[k]; var out := Logged(lib, fields, i);
            && out.Arr? && j < |out.items| && out.items[j].Obj? && |out.items[j].fields| == |fields[i].value.items[j].fields|
            && out.items[j].fields[k] == if part.key == "value" then Field("value", Str("<redacted>")) else part
  {
    assert Logged(lib, fields, i).items[j] == Cookie(fields[i].value.items[j]);
  }

  // ---- forms ----

  lemma PairIsLogged(name: string, value: string)
    requires '=' !in name
    ensures FormPair(name) == name && FormPair(name + "=" + value) == name + "=" + "<redacted>"
  {
    IndexOfFirst(name, '=', value);
    assert (name + "=" + value)[..|name|] == name;
  }

  lemma {:induction false} PairsAreLogged(pairs: seq<string>)
    requires pairs != [] && forall i | 0 <= i < |pairs| :: '&' !in pairs[i]
    ensures var q := Split(FormPairs(pairs), '&');
            |q| == |pairs| && forall i | 0 <= i < |pairs| :: q[i] == FormPair(pairs[i])
  {
    FormPairKeepsName(pairs[0]);
    if |pairs| == 1 {
      SplitFirst(FormPair(pairs[0]), '&', "");
    } else {
      SplitFirst(FormPair(pairs[0]), '&', FormPairs(pairs[1..]));
      PairsAreLogged(pairs[1..]);
    }
  }

  /** A form string is logged pair by pair; a form object keeps its keys; a list goes whole. */
  lemma PostDataIsLogged(lib: Lib, fields: seq<Field>, i: nat)
    requires i < |fields| && fields[i].key == "postData"
    ensures var v := fields[i].value; var out := Logged(lib, fields, i);
            match v
            case Str(s) =>
              out.Str? && |Split(out.s, '&')| == |Split(s, '&')|
              && forall j | 0 <= j < |Split(s, '&')| :: Split(out.s, '&')[j] == FormPair(Split(s, '&')[j])
            case Obj(form) =>
              out.Obj? && |out.fields| == |form|
              && forall j | 0 <= j < |form| :: out.fields[j] == Field(form[j].key, Str("<redacted>"))
            case Arr(_) => out == Str("<redacted>")
            case _ => out == v
  {
    if fields[i].value.Str? {
      var s := fields[i].value.s;
      SplitKeepsOut(s, '&');
      if s != "" { PairsAreLogged(Split(s, '&')); }
      else { assert Split("", '&') == [""]; PairIsLogged("", ""); }
    }
  }

  // ---- URLs and proxies ----

  /** A proxy URL: what redact.url replaces stays replaced, and what still has a colon before its first at-sign goes whole. */
  lemma ProxyUrlIsLogged(lib: Lib, s: string)
    ensures lib.url(s) != s && s != "" ==> ProxyUrl(lib, s) == lib.url(s)
    ensures (lib.url(s) == s || s == "") && !Userinfo(s) ==> ProxyUrl(lib, s) == s
    ensures lib.url(s) == s && Userinfo(s) ==> ProxyUrl(lib, s) == "<redacted>"
  {
    UserinfoIff(s);
  }

  lemma UserinfoIff(s: string)
    ensures LooksLikeUserinfo(s) <==> Userinfo(s)
  {
    var at := IndexOf(s, '@');
    if LooksLikeUserinfo(s) {
      var j :| 0 <= j < at && s[..at][j] == ':';
      assert s[at] == '@' && s[j] == ':';
    }
    if Userinfo(s) {
      var i, j :| 0 <= j < i < |s| && s[i] == '@' && s[j] == ':' && forall k | 0 <= k < i :: s[k] != '@';
      assert at == i && s[..at][j] == ':';
    }
  }

  ghost predicate Userinfo(s: string) {
    exists i, j :: 0 <= j < i < |s| && s[i] == '@' && s[j] == ':' && forall k | 0 <= k < i :: s[k] != '@'
  }

  lemma UrlIsLogged(lib: Lib, fields: seq<Field>, i: nat)
    requires i < |fields| && fields[i].key == "url"
    ensures Logged(lib, fields, i) == if fields[i].value.Str? then Str(lib.url(fields[i].value.s)) else fields[i].value
  {
  }

  /** A proxy of a shape that is neither text nor object goes whole, unless there is nothing in it. */
  lemma ProxyIsLogged(lib: Lib, fields: seq<Field>, i: nat)
    requires i < |fields| && fields[i].key == "proxy"
    ensures var v := fields[i].value; var out := Logged(lib, fields, i);
            match v
            case Str(s) => out == Str(ProxyUrl(lib, s))
            case Obj(parts) => out.Obj? && |out.fields| == |parts|
            case _ => out == if v == Null || v == Arr([]) then v else Str("<redacted>")
  {
    assert Logged(lib, fields, i) == Proxy(lib, fields[i].value);
  }

  /** In a proxy object: its secrets, its url, and everything else as an ordinary value. */
  lemma ProxyPartIsLogged(lib: Lib, fields: seq<Field>, i: nat, j: nat)
    requires i < |fields| && fields[i].key == "proxy" && fields[i].value.Obj? && j < |fields[i].value.fields|
    ensures var part := fields[i].value.fields[j]; var v := part.value; var out := Logged(lib, fields, i);
            && out.Obj? && |out.fields| == |fields[i].value.fields|
            && out.fields[j] == Field(part.key,
                 if (part.key == "password" || part.key == "turnstile_token")
                    && v != Null && v != Bool(false) && v != Num(0.0) && v != Str("") && v != Arr([]) && v != Obj([])
                 then Str("<redacted>")
                 else if part.key == "url" then (if v.Str? then Str(ProxyUrl(lib, v.s)) else Str("<redacted>"))
                 else Body(lib, v))
  {
    var v := fields[i].value;
    assert Logged(lib, fields, i) == Proxy(lib, v);
    assert Proxy(lib, v).fields[j] == Field(v.fields[j].key, ProxyField(lib, v.fields[j]));
    EmptyStays(lib);
  }

  // ---- everything else ----

  /** Any other field is walked, lists item by item, and a plain value is left alone. */
  lemma OtherFieldIsWalked(lib: Lib, fields: seq<Field>, i: nat)
    requires i < |fields|
    requires fields[i].key !in ["password", "turnstile_token", "cookies", "headers", "postData", "proxy", "url"]
    ensures Logged(lib, fields, i) == Body(lib, fields[i].value)
  {
    var key := fields[i].key;
    var names := ["password", "turnstile_token", "cookies", "headers", "postData", "proxy", "url"];
    assert forall n | 0 <= n < |names| :: key != names[n];
    assert key != names[0] && key != names[1] && key != names[2] && key != names[3];
    assert key != names[4] && key != names[5] && key != names[6];
  }

  lemma ListIsWalked(lib: Lib, items: seq<Json>, i: nat)
    requires i < |items|
    ensures var out := Body(lib, Arr(items)); out.Arr? && |out.items| == |items| && out.items[i] == Body(lib, items[i])
    ensures forall v: Json | !v.Arr? && !v.Obj? :: Body(lib, v) == v
  {
  }
}
