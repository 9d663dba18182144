/** A credential in an exposed place reaches the log: some other value for it is logged differently. */
module RedactionLimits {
  import opened Text
  import opened Redact
  import opened Redaction
  import opened RedactionReach

  // ---- every credential replaced by another one ----

  function Another(v: Json): Json { if v == Null then Bool(true) else Null }

  function Flip(lib: Lib, v: Json): Json
    decreases v
  {
    match v
    case Arr(items) => Arr(seq(|items|, i requires 0 <= i < |items| => Flip(lib, items[i])))
    case Obj(fields) => Obj(seq(|fields|, i requires 0 <= i < |fields| => FlipField(lib, fields[i])))
    case _ => v
  }

  function FlipField(lib: Lib, f: Field): Field
    decreases f
  {
    Field(f.key,
      if SecretHere(f) then (if f.value == Str("x") then Str("y") else Str("x"))
      else if f.key == "cookies" then FlipCookies(lib, f.value)
      else if f.key == "headers" then FlipHeaders(lib, f.value)
      else if f.key == "postData" then FlipPostData(f.value)
      else Flip(lib, f.value))
  }

  function Cells(fields: seq<Field>): seq<Field> {
    seq(|fields|, i requires 0 <= i < |fields| => Field(fields[i].key, Another(fields[i].value)))
  }

  function FlipCookies(lib: Lib, v: Json): Json
    decreases v
  {
    match v
    case Str(s) => Str(if s == "x" then "y" else "x")
    case Obj(fields) => Obj(Cells(fields))
    case Arr(items) => Arr(seq(|items|, i requires 0 <= i < |items| => FlipCookie(lib, items[i])))
    case _ => v
  }

  function FlipCookie(lib: Lib, c: Json): Json
    decreases c
  {
    if c.Obj?
    then Obj(seq(|c.fields|, i requires 0 <= i < |c.fields| =>
           if c.fields[i].key == "value" then Field("value", Another(c.fields[i].value)) else FlipField(lib, c.fields[i])))
    else Another(c)
  }

  function FlipHeaders(lib: Lib, v: Json): Json
    decreases v
  {
    if v.Obj?
    then Obj(seq(|v.fields|, i requires 0 <= i < |v.fields| =>
           if IsCredential(lib, v.fields[i].key) then Field(v.fields[i].key, Another(v.fields[i].value))
           else FlipField(lib, v.fields[i])))
    else if IsBlank(v) then v
    else Bool(v != Bool(true))
  }

  function FlipPostData(v: Json): Json {
    match v
    case Str(s) => Str(FlipForm(s))
    case Obj(fields) => Obj(Cells(fields))
    case Arr(items) => if items == [] then Arr([Null]) else Arr([])
    case _ => v
  }

  /** The pair with `value` for its value, if it has one. */
  function Refilled(pair: string, value: string): string {
    if HasValue(pair) then NameOf(pair) + "=" + value else pair
  }

  function RefilledPairs(pairs: seq<string>, value: string): string
    requires pairs != []
  {
    if |pairs| == 1 then Refilled(pairs[0], value)
    else Refilled(pairs[0], value) + "&" + RefilledPairs(pairs[1..], value)
  }

  function FlipForm(s: string): string {
    var x := RefilledPairs(Split(s, '&'), "x");
    if x != s then x else RefilledPairs(Split(s, '&'), "y")
  }

  lemma RefilledKeepsName(pair: string, value: string)
    requires '&' !in pair && '&' !in value
    ensures '&' !in Refilled(pair, value) && AlikePair(pair, Refilled(pair, value))
    ensures HasValue(pair) ==> Refilled(pair, value) == NameOf(pair) + "=" + value
  {
    var i := IndexOf(pair, '=');
    if i < |pair| {
      IndexOfFirst(pair[..i], '=', value);
      assert Refilled(pair, value)[..i] == pair[..i];
    }
  }

  lemma {:induction false} RefilledSplits(pairs: seq<string>, value: string)
    requires pairs != [] && '&' !in value && forall i | 0 <= i < |pairs| :: '&' !in pairs[i]
    ensures var q := Split(RefilledPairs(pairs, value), '&');
            |q| == |pairs| && forall i | 0 <= i < |pairs| :: q[i] == Refilled(pairs[i], value)
  {
    RefilledKeepsName(pairs[0], value);
    if |pairs| == 1 {
      SplitFirst(Refilled(pairs[0], value), '&', "");
    } else {
      SplitFirst(Refilled(pairs[0], value), '&', RefilledPairs(pairs[1..], value));
      RefilledSplits(pairs[1..], value);
    }
  }

  lemma RefillIsAlike(s: string, value: string)
    requires '&' !in value
    ensures AlikeForm(s, RefilledPairs(Split(s, '&'), value))
  {
    var p, t := Split(s, '&'), RefilledPairs(Split(s, '&'), value);
    SplitKeepsOut(s, '&');
    RefilledSplits(p, value);
    forall i | 0 <= i < |p| ensures AlikePair(p[i], Split(t, '&')[i]) {
      RefilledKeepsName(p[i], value);
    }
    if s == "" {
      assert p == [""];
    } else if t == "" {
      assert Split(t, '&') == [""] && Refilled(p[0], value) == "";
      assert !HasValue(p[0]);
      SplitIsInjective(s, t, '&');
    }
  }

  lemma FlipFormMoves(s: string, i: nat)
    requires i < |Split(s, '&')| && HasValue(Split(s, '&')[i])
    ensures FlipForm(s) != s
  {
    var p := Split(s, '&');
    SplitKeepsOut(s, '&');
    RefilledSplits(p, "x");
    RefilledSplits(p, "y");
    RefilledKeepsName(p[i], "x");
    RefilledKeepsName(p[i], "y");
    var n := NameOf(p[i]) + "=";
    assert (n + "x")[|n|] != (n + "y")[|n|];
  }

  // ---- it is a variant ----

  lemma FlipPostDataIsAlike(v: Json)
    ensures AlikePostData(v, FlipPostData(v))
  {
    if v.Str? {
      RefillIsAlike(v.s, "x");
      RefillIsAlike(v.s, "y");
    }
  }

  lemma {:induction false} FlipIsVariant(lib: Lib, v: Json)
    ensures Variant(lib, v, Flip(lib, v))
    decreases v
  {
    match v
    case Arr(items) =>
      forall i | 0 <= i < |items| ensures Variant(lib, items[i], Flip(lib, items[i])) { FlipIsVariant(lib, items[i]); }
    case Obj(fields) =>
      forall i | 0 <= i < |fields| ensures VariantField(lib, fields[i], FlipField(lib, fields[i])) {
        FlipFieldIsVariant(lib, fields[i]);
      }
    case _ =>
  }

  lemma {:induction false} FlipFieldIsVariant(lib: Lib, f: Field)
    ensures VariantField(lib, f, FlipField(lib, f))
    decreases f
  {
    if SecretHere(f) {
      assert BothSecret(f, FlipField(lib, f));
    } else if f.key == "cookies" {
      FlipCookiesIsVariant(lib, f.value);
    } else if f.key == "headers" {
      FlipHeadersIsVariant(lib, f.value);
    } else if f.key == "postData" {
      FlipPostDataIsAlike(f.value);
    } else {
      FlipIsVariant(lib, f.value);
    }
  }

  lemma {:induction false} FlipCookiesIsVariant(lib: Lib, v: Json)
    ensures VariantCookies(lib, v, FlipCookies(lib, v))
    decreases v
  {
    if v.Arr? {
      forall i | 0 <= i < |v.items| ensures VariantCookie(lib, v.items[i], FlipCookie(lib, v.items[i])) {
        FlipCookieIsVariant(lib, v.items[i]);
      }
    }
  }

  lemma {:induction false} FlipCookieIsVariant(lib: Lib, c: Json)
    ensures VariantCookie(lib, c, FlipCookie(lib, c))
    decreases c
  {
    if c.Obj? {
      var d := FlipCookie(lib, c);
      forall i | 0 <= i < |c.fields| && c.fields[i].key != "value" ensures VariantField(lib, c.fields[i], d.fields[i]) {
        FlipFieldIsVariant(lib, c.fields[i]);
      }
    }
  }

  lemma {:induction false} FlipHeadersIsVariant(lib: Lib, v: Json)
    ensures VariantHeaders(lib, v, FlipHeaders(lib, v))
    decreases v
  {
    if v.Obj? {
      var d := FlipHeaders(lib, v);
      forall i | 0 <= i < |v.fields| && !IsCredential(lib, v.fields[i].key) ensures VariantField(lib, v.fields[i], d.fields[i]) {
        FlipFieldIsVariant(lib, v.fields[i]);
      }
    }
  }

  // ---- it moves whatever carries a credential ----

  lemma {:induction false} FlipMoves(lib: Lib, v: Json)
    requires Carries(lib, v)
    ensures Flip(lib, v) != v
    decreases v
  {
    if v.Arr? {
      var i :| 0 <= i < |v.items| && Carries(lib, v.items[i]);
      FlipMoves(lib, v.items[i]);
      assert Flip(lib, v).items[i] != v.items[i];
    } else {
      var i :| 0 <= i < |v.fields| && CarriesField(lib, v.fields[i]);
      FlipMovesField(lib, v.fields[i]);
      assert Flip(lib, v).fields[i] != v.fields[i];
    }
  }

  lemma {:induction false} FlipMovesField(lib: Lib, f: Field)
    requires CarriesField(lib, f)
    ensures FlipField(lib, f) != f
    decreases f
  {
    if SecretHere(f) {
    } else if f.key == "cookies" {
      FlipMovesCookies(lib, f.value);
    } else if f.key == "headers" {
      FlipMovesHeaders(lib, f.value);
    } else if f.key == "postData" {
      FlipMovesPostData(f.value);
    } else {
      FlipMoves(lib, f.value);
    }
  }

  lemma {:induction false} FlipMovesCookies(lib: Lib, v: Json)
    requires CarriesCookies(lib, v)
    ensures FlipCookies(lib, v) != v
    decreases v
  {
    if v.Obj? {
      assert FlipCookies(lib, v).fields[0] != v.fields[0];
    } else if v.Arr? {
      var i :| 0 <= i < |v.items| && CarriesCookie(lib, v.items[i]);
      FlipMovesCookie(lib, v.items[i]);
      assert FlipCookies(lib, v).items[i] != v.items[i];
    }
  }

  lemma {:induction false} FlipMovesCookie(lib: Lib, c: Json)
    requires CarriesCookie(lib, c)
    ensures FlipCookie(lib, c) != c
    decreases c
  {
    if c.Obj? {
      var i :| 0 <= i < |c.fields| && (c.fields[i].key == "value" || CarriesField(lib, c.fields[i]));
      if c.fields[i].key != "value" { FlipMovesField(lib, c.fields[i]); }
      assert FlipCookie(lib, c).fields[i] != c.fields[i];
    }
  }

  lemma {:induction false} FlipMovesHeaders(lib: Lib, v: Json)
    requires CarriesHeaders(lib, v)
    ensures FlipHeaders(lib, v) != v
    decreases v
  {
    if v.Obj? {
      var i :| 0 <= i < |v.fields| && (IsCredential(lib, v.fields[i].key) || CarriesField(lib, v.fields[i]));
      if !IsCredential(lib, v.fields[i].key) { FlipMovesField(lib, v.fields[i]); }
      assert FlipHeaders(lib, v).fields[i] != v.fields[i];
    }
  }

  lemma FlipMovesPostData(v: Json)
    requires CarriesPostData(v)
    ensures FlipPostData(v) != v
  {
    if v.Str? {
      var i :| 0 <= i < |Split(v.s, '&')| && HasValue(Split(v.s, '&')[i]);
      FlipFormMoves(v.s, i);
    } else if v.Obj? {
      assert FlipPostData(v).fields[0] != v.fields[0];
    }
  }

  // ---- where the redaction does not look, the move shows ----

  /** Null is logged as Null under any key, and nothing else is. */
  lemma NullAlone(lib: Lib, f: Field)
    ensures BodyField(lib, f) == Null <==> f.value == Null
    ensures Body(lib, f.value) == Null <==> f.value == Null
  {
  }

  lemma AnotherShows(lib: Lib, key: string, v: Json)
    ensures BodyField(lib, Field(key, v)) != BodyField(lib, Field(key, Another(v)))
    ensures Body(lib, v) != Body(lib, Another(v))
  {
    NullAlone(lib, Field(key, v));
    NullAlone(lib, Field(key, Another(v)));
  }

  lemma CookiesShow(lib: Lib, v: Json)
    requires v.Arr? && exists i | 0 <= i < |v.items| :: ExposedCookie(lib, v.items[i])
    ensures Cookies(v) != Cookies(FlipCookies(lib, v))
  {
    var i :| 0 <= i < |v.items| && ExposedCookie(lib, v.items[i]);
    var c := v.items[i];
    var j :| 0 <= j < |c.fields| && ExposedAttribute(lib, c.fields[j]);
    FlipMovesField(lib, c.fields[j]);
    assert Cookie(c).fields[j] == c.fields[j];
    assert Cookie(FlipCookie(lib, c)).fields[j] == FlipField(lib, c.fields[j]);
    assert Cookies(v).items[i] == Cookie(c);
    assert Cookies(FlipCookies(lib, v)).items[i] == Cookie(FlipCookie(lib, c));
  }

  lemma HeadersShow(lib: Lib, v: Json)
    requires v.Obj? && exists i | 0 <= i < |v.fields| :: ExposedHeader(lib, v.fields[i])
    ensures Headers(lib, v) != Headers(lib, FlipHeaders(lib, v))
  {
    var i :| 0 <= i < |v.fields| && ExposedHeader(lib, v.fields[i]);
    FlipMovesField(lib, v.fields[i]);
    assert Headers(lib, v).fields[i] == v.fields[i];
    assert Headers(lib, FlipHeaders(lib, v)).fields[i] == FlipField(lib, v.fields[i]);
  }

  lemma {:induction false} ExposedShows(lib: Lib, v: Json)
    requires Exposed(lib, v)
    ensures Body(lib, v) != Body(lib, Flip(lib, v))
    decreases v
  {
    if v.Arr? {
      var i :| 0 <= i < |v.items| && Exposed(lib, v.items[i]);
      ExposedShows(lib, v.items[i]);
      assert Body(lib, v).items[i] == Body(lib, v.items[i]);
      assert Body(lib, Flip(lib, v)).items[i] == Body(lib, Flip(lib, v.items[i]));
    } else {
      var i :| 0 <= i < |v.fields| && ExposedField(lib, v.fields[i]);
      FieldShows(lib, v.fields[i]);
      assert Body(lib, v).fields[i].value == BodyField(lib, v.fields[i]);
      assert Body(lib, Flip(lib, v)).fields[i].value == BodyField(lib, FlipField(lib, v.fields[i]));
    }
  }

  /** No secret appears under a key that had none. */
  lemma StillNoSecret(lib: Lib, f: Field)
    requires !SecretHere(f)
    ensures !SecretHere(FlipField(lib, f))
  {
    if IsSecret(f.key) {
      FlipIsVariant(lib, f.value);
      VariantShape(lib, f.value, Flip(lib, f.value));
    }
  }

  lemma {:induction false} FieldShows(lib: Lib, f: Field)
    requires ExposedField(lib, f)
    ensures BodyField(lib, f) != BodyField(lib, FlipField(lib, f))
    decreases f
  {
    StillNoSecret(lib, f);
    if f.key == "cookies" {
      CookiesShow(lib, f.value);
    } else if f.key == "headers" {
      HeadersShow(lib, f.value);
    } else if f.key == "proxy" {
      ProxyShows(lib, f.value);
    } else if f.key == "url" {
      FlipIsVariant(lib, f.value);
      VariantShape(lib, f.value, Flip(lib, f.value));
      FlipMoves(lib, f.value);
    } else {
      ExposedShows(lib, f.value);
    }
  }

  lemma {:induction false} ProxyShows(lib: Lib, v: Json)
    requires v.Obj? && exists i | 0 <= i < |v.fields| :: ExposedProxyField(lib, v.fields[i])
    ensures Proxy(lib, v) != Proxy(lib, Flip(lib, v))
    decreases v
  {
    var i :| 0 <= i < |v.fields| && ExposedProxyField(lib, v.fields[i]);
    ProxyFieldShows(lib, v.fields[i]);
    assert Proxy(lib, v).fields[i].value == ProxyField(lib, v.fields[i]);
    assert Proxy(lib, Flip(lib, v)).fields[i].value == ProxyField(lib, FlipField(lib, v.fields[i]));
  }

  lemma {:induction false} ProxyFieldShows(lib: Lib, f: Field)
    requires ExposedProxyField(lib, f)
    ensures ProxyField(lib, f) != ProxyField(lib, FlipField(lib, f))
    decreases f
  {
    StillNoSecret(lib, f);
    if f.key == "cookies" { BareCookiesShow(lib, f.value); }
    else if f.key == "headers" { BareHeadersShow(lib, f.value); }
    else if f.key == "postData" { BarePostDataShows(lib, f.value); }
    else { ExposedShows(lib, f.value); }
  }

  lemma CellsShow(lib: Lib, fields: seq<Field>)
    requires fields != []
    ensures Body(lib, Obj(fields)) != Body(lib, Obj(Cells(fields)))
  {
    AnotherShows(lib, fields[0].key, fields[0].value);
    assert Body(lib, Obj(fields)).fields[0].value == BodyField(lib, Field(fields[0].key, fields[0].value));
    assert Body(lib, Obj(Cells(fields))).fields[0].value == BodyField(lib, Cells(fields)[0]);
  }

  lemma {:induction false} BareCookiesShow(lib: Lib, v: Json)
    requires ExposedBareCookies(lib, v)
    ensures Body(lib, v) != Body(lib, FlipCookies(lib, v))
    decreases v
  {
    if v.Obj? {
      CellsShow(lib, v.fields);
    } else if v.Arr? {
      var i :| 0 <= i < |v.items| && ExposedBareCookie(lib, v.items[i]);
      BareCookieShows(lib, v.items[i]);
      assert Body(lib, v).items[i] == Body(lib, v.items[i]);
      assert Body(lib, FlipCookies(lib, v)).items[i] == Body(lib, FlipCookie(lib, v.items[i]));
    }
  }

  lemma {:induction false} BareCookieShows(lib: Lib, c: Json)
    requires ExposedBareCookie(lib, c)
    ensures Body(lib, c) != Body(lib, FlipCookie(lib, c))
    decreases c
  {
    if c.Obj? {
      var i :| 0 <= i < |c.fields| && (c.fields[i].key == "value" || ExposedField(lib, c.fields[i]));
      var f := c.fields[i];
      if f.key == "value" { AnotherShows(lib, "value", f.value); } else { FieldShows(lib, f); }
      assert Body(lib, c).fields[i].value == BodyField(lib, Field(f.key, f.value));
      assert Body(lib, FlipCookie(lib, c)).fields[i].value
          == BodyField(lib, if f.key == "value" then Field("value", Another(f.value)) else FlipField(lib, f));
    } else {
      AnotherShows(lib, "", c);
    }
  }

  lemma {:induction false} BareHeadersShow(lib: Lib, v: Json)
    requires ExposedBareHeaders(lib, v)
    ensures Body(lib, v) != Body(lib, FlipHeaders(lib, v))
    decreases v
  {
    if v.Obj? {
      var i :| 0 <= i < |v.fields| && (IsCredential(lib, v.fields[i].key) || ExposedField(lib, v.fields[i]));
      var f := v.fields[i];
      if IsCredential(lib, f.key) { AnotherShows(lib, f.key, f.value); } else { FieldShows(lib, f); }
      assert Body(lib, v).fields[i].value == BodyField(lib, Field(f.key, f.value));
      assert Body(lib, FlipHeaders(lib, v)).fields[i].value
          == BodyField(lib, if IsCredential(lib, f.key) then Field(f.key, Another(f.value)) else FlipField(lib, f));
    }
  }

  lemma BarePostDataShows(lib: Lib, v: Json)
    requires CarriesPostData(v)
    ensures Body(lib, v) != Body(lib, FlipPostData(v))
  {
    if v.Obj? {
      CellsShow(lib, v.fields);
    } else if v.Str? {
      FlipMovesPostData(v);
    } else {
      assert |Body(lib, v).items| == |v.items|;
    }
  }

  /** The output is independent of every credential in the body exactly when none of them is exposed. */
  lemma CredentialsAreHiddenIff(lib: Lib, a: Json)
    ensures (forall b :: Variant(lib, a, b) ==> Body(lib, b) == Body(lib, a)) <==> !Exposed(lib, a)
  {
    if Exposed(lib, a) {
      FlipIsVariant(lib, a);
      ExposedShows(lib, a);
    } else {
      forall b | Variant(lib, a, b) ensures Body(lib, b) == Body(lib, a) {
        Unexposed(lib, a, b);
        SameOutput(lib, a, b);
      }
    }
  }

  // ---- one body for each place ----

  lemma OneField(lib: Lib, f: Field)
    ensures Body(lib, Obj([f])) == Obj([Field(f.key, BodyField(lib, f))])
  {
    assert Body(lib, Obj([f])).fields == [Field(f.key, BodyField(lib, f))];
  }

  /** A password inside an object sent as `url` reaches the log, and so does anything else in it. */
  lemma UrlObjectIsLogged(lib: Lib, inside: seq<Field>)
    ensures var request := Obj([Field("url", Obj(inside))]);
            Body(lib, request) == request
  {
    OneField(lib, Field("url", Obj(inside)));
  }

  /** A cookie string under a proxy reaches the log. */
  lemma ProxyCookiesAreLogged(lib: Lib, cookie: string)
    ensures var request := Obj([Field("proxy", Obj([Field("cookies", Str(cookie))]))]);
            Body(lib, request) == request && Exposed(lib, request)
  {
    var cookies := Field("cookies", Str(cookie));
    assert ProxyField(lib, cookies) == cookies.value;
    assert Proxy(lib, Obj([cookies])).fields == [cookies];
    OneField(lib, Field("proxy", Obj([cookies])));
    assert ExposedProxyField(lib, cookies);
    assert [cookies][0] == cookies;
    assert ExposedField(lib, Field("proxy", Obj([cookies])));
    assert [Field("proxy", Obj([cookies]))][0] == Field("proxy", Obj([cookies]));
  }

  /** A password among a cookie's attributes reaches the log. */
  lemma CookieAttributeIsLogged(lib: Lib, password: string)
    ensures var request := Obj([Field("cookies", Arr([Obj([Field("password", Str(password))])]))]);
            Body(lib, request) == request
  {
    var cookie := Obj([Field("password", Str(password))]);
    assert Cookie(cookie).fields == cookie.fields;
    assert Cookies(Arr([cookie])).items == [cookie];
    OneField(lib, Field("cookies", Arr([cookie])));
  }

  /** A password under a header that is no credential reaches the log. */
  lemma PlainHeaderIsLogged(lib: Lib, password: string, header: string)
    requires !IsCredential(lib, header)
    ensures var request := Obj([Field("headers", Obj([Field(header, Obj([Field("password", Str(password))]))]))]);
            Body(lib, request) == request
  {
    var sent := Obj([Field(header, Obj([Field("password", Str(password))]))]);
    assert Headers(lib, sent).fields == sent.fields;
    OneField(lib, Field("headers", sent));
  }
}
