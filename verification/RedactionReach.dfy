/**
  Which credential values the redaction reaches. Inside an object sent as `url`, under a
  header that is no credential, at a cookie's attributes other than its value, and under a
  proxy's `cookies`, `headers` and `postData` it does not look; everywhere else it does.
 */
module RedactionReach {
  import opened Text
  import opened Redact
  import opened Redaction

  // ---- the same body but for its credentials ----

  /** The same value but for non-empty secrets, cookie values, credential headers and form values, at any depth. */
  predicate Variant(lib: Lib, a: Json, b: Json)
    decreases a
  {
    match a
    case Arr(items) => b.Arr? && |items| == |b.items| && forall i | 0 <= i < |items| :: Variant(lib, items[i], b.items[i])
    case Obj(fields) =>
      b.Obj? && |fields| == |b.fields| && forall i | 0 <= i < |fields| :: VariantField(lib, fields[i], b.fields[i])
    case _ => a == b
  }

  predicate VariantField(lib: Lib, a: Field, b: Field)
    decreases a
  {
    a.key == b.key && (
      || BothSecret(a, b)
      || (if a.key == "cookies" then VariantCookies(lib, a.value, b.value)
          else if a.key == "headers" then VariantHeaders(lib, a.value, b.value)
          else if a.key == "postData" then AlikePostData(a.value, b.value)
          else Variant(lib, a.value, b.value)))
  }

  predicate VariantCookies(lib: Lib, a: Json, b: Json)
    decreases a
  {
    || a == b
    || (a.Str? && b.Str?)
    || (a.Obj? && b.Obj? && SameKeys(a.fields, b.fields))
    || (a.Arr? && b.Arr? && |a.items| == |b.items|
        && forall i | 0 <= i < |a.items| :: VariantCookie(lib, a.items[i], b.items[i]))
  }

  predicate VariantCookie(lib: Lib, a: Json, b: Json)
    decreases a
  {
    if a.Obj? && b.Obj?
    then SameKeys(a.fields, b.fields)
         && forall i | 0 <= i < |a.fields| :: a.fields[i].key != "value" ==> VariantField(lib, a.fields[i], b.fields[i])
    else !a.Obj? && !b.Obj?
  }

  predicate VariantHeaders(lib: Lib, a: Json, b: Json)
    decreases a
  {
    || a == b
    || (a.Obj? && b.Obj? && SameKeys(a.fields, b.fields)
        && forall i | 0 <= i < |a.fields| ::
             !IsCredential(lib, a.fields[i].key) ==> VariantField(lib, a.fields[i], b.fields[i]))
    || (!a.Obj? && !b.Obj? && !IsBlank(a) && !IsBlank(b))
  }

  // ---- where credentials are, and where they are exposed ----

  predicate SecretHere(f: Field) { IsSecret(f.key) && Truthy(f.value) }

  /** There is a credential somewhere inside. */
  predicate Carries(lib: Lib, v: Json)
    decreases v
  {
    match v
    case Arr(items) => exists i | 0 <= i < |items| :: Carries(lib, items[i])
    case Obj(fields) => exists i | 0 <= i < |fields| :: CarriesField(lib, fields[i])
    case _ => false
  }

  predicate CarriesField(lib: Lib, f: Field)
    decreases f
  {
    || SecretHere(f)
    || (if f.key == "cookies" then CarriesCookies(lib, f.value)
        else if f.key == "headers" then CarriesHeaders(lib, f.value)
        else if f.key == "postData" then CarriesPostData(f.value)
        else Carries(lib, f.value))
  }

  predicate CarriesCookies(lib: Lib, v: Json)
    decreases v
  {
    match v
    case Str(_) => true
    case Obj(fields) => fields != []
    case Arr(items) => exists i | 0 <= i < |items| :: CarriesCookie(lib, items[i])
    case _ => false
  }

  predicate CarriesCookie(lib: Lib, c: Json)
    decreases c
  {
    !c.Obj? || exists i | 0 <= i < |c.fields| :: c.fields[i].key == "value" || CarriesField(lib, c.fields[i])
  }

  predicate CarriesHeaders(lib: Lib, v: Json)
    decreases v
  {
    if v.Obj? then exists i | 0 <= i < |v.fields| :: IsCredential(lib, v.fields[i].key) || CarriesField(lib, v.fields[i])
    else !IsBlank(v)
  }

  predicate HasValue(pair: string) { IndexOf(pair, '=') < |pair| }

  predicate CarriesPostData(v: Json) {
    match v
    case Str(s) => exists i | 0 <= i < |Split(s, '&')| :: HasValue(Split(s, '&')[i])
    case Obj(fields) => fields != []
    case Arr(_) => true
    case _ => false
  }

  /** There is a credential where the redaction does not look. */
  predicate Exposed(lib: Lib, v: Json)
    decreases v
  {
    match v
    case Arr(items) => exists i | 0 <= i < |items| :: Exposed(lib, items[i])
    case Obj(fields) => exists i | 0 <= i < |fields| :: ExposedField(lib, fields[i])
    case _ => false
  }

  predicate ExposedField(lib: Lib, f: Field)
    decreases f
  {
    !SecretHere(f) &&
    (if f.key == "cookies" then f.value.Arr? && exists i | 0 <= i < |f.value.items| :: ExposedCookie(lib, f.value.items[i])
     else if f.key == "headers" then f.value.Obj? && exists i | 0 <= i < |f.value.fields| :: ExposedHeader(lib, f.value.fields[i])
     else if f.key == "postData" then false
     else if f.key == "proxy" then f.value.Obj? && exists i | 0 <= i < |f.value.fields| :: ExposedProxyField(lib, f.value.fields[i])
     else if f.key == "url" then Carries(lib, f.value)
     else Exposed(lib, f.value))
  }

  predicate ExposedCookie(lib: Lib, c: Json) {
    c.Obj? && exists i | 0 <= i < |c.fields| :: ExposedAttribute(lib, c.fields[i])
  }

  predicate ExposedAttribute(lib: Lib, f: Field) { f.key != "value" && CarriesField(lib, f) }

  predicate ExposedHeader(lib: Lib, f: Field) { !IsCredential(lib, f.key) && CarriesField(lib, f) }

  /** A proxy's own cookies, headers and form are walked like any other value. */
  predicate ExposedProxyField(lib: Lib, f: Field)
    decreases f
  {
    !SecretHere(f) && f.key != "url" &&
    (if f.key == "cookies" then ExposedBareCookies(lib, f.value)
     else if f.key == "headers" then ExposedBareHeaders(lib, f.value)
     else if f.key == "postData" then CarriesPostData(f.value)
     else Exposed(lib, f.value))
  }

  predicate ExposedBareCookies(lib: Lib, v: Json)
    decreases v
  {
    match v
    case Str(_) => true
    case Obj(fields) => fields != []
    case Arr(items) => exists i | 0 <= i < |items| :: ExposedBareCookie(lib, items[i])
    case _ => false
  }

  predicate ExposedBareCookie(lib: Lib, c: Json)
    decreases c
  {
    !c.Obj? || exists i | 0 <= i < |c.fields| :: c.fields[i].key == "value" || ExposedField(lib, c.fields[i])
  }

  predicate ExposedBareHeaders(lib: Lib, v: Json)
    decreases v
  {
    if v.Obj? then exists i | 0 <= i < |v.fields| :: IsCredential(lib, v.fields[i].key) || ExposedField(lib, v.fields[i])
    else !IsBlank(v)
  }

  // ---- what carries no credential has no other variant ----

  lemma VariantShape(lib: Lib, a: Json, b: Json)
    requires Variant(lib, a, b)
    ensures a.Str? <==> b.Str?
    ensures a.Arr? <==> b.Arr?
    ensures a.Obj? <==> b.Obj?
    ensures IsBlank(a) <==> IsBlank(b)
    ensures Truthy(a) <==> Truthy(b)
  {
  }

  lemma NoFormValues(a: Json, b: Json)
    requires AlikePostData(a, b) && !CarriesPostData(a)
    ensures a == b
  {
    if a.Str? && a != b {
      var p, q := Split(a.s, '&'), Split(b.s, '&');
      forall i | 0 <= i < |p| ensures p[i] == q[i] {
        assert AlikePair(p[i], q[i]) && !HasValue(p[i]);
      }
      SplitIsInjective(a.s, b.s, '&');
    }
  }

  lemma {:induction false} NothingCarried(lib: Lib, a: Json, b: Json)
    requires Variant(lib, a, b) && !Carries(lib, a)
    ensures a == b
    decreases a
  {
    match a
    case Arr(items) =>
      forall i | 0 <= i < |items| ensures items[i] == b.items[i] { NothingCarried(lib, items[i], b.items[i]); }
      assert items == b.items;
    case Obj(fields) =>
      forall i | 0 <= i < |fields| ensures fields[i] == b.fields[i] { NoneCarried(lib, fields[i], b.fields[i]); }
      assert fields == b.fields;
    case _ =>
  }

  lemma {:induction false} NoneCarried(lib: Lib, a: Field, b: Field)
    requires VariantField(lib, a, b) && !CarriesField(lib, a)
    ensures a == b
    decreases a
  {
    if a.key == "cookies" { NoCookiesCarried(lib, a.value, b.value); }
    else if a.key == "headers" { NoHeadersCarried(lib, a.value, b.value); }
    else if a.key == "postData" { NoFormValues(a.value, b.value); }
    else { NothingCarried(lib, a.value, b.value); }
  }

  lemma {:induction false} NoCookiesCarried(lib: Lib, a: Json, b: Json)
    requires VariantCookies(lib, a, b) && !CarriesCookies(lib, a)
    ensures a == b
    decreases a
  {
    if a.Arr? && b.Arr? && |a.items| == |b.items| {
      forall i | 0 <= i < |a.items| ensures a.items[i] == b.items[i] {
        if a != b { NoCookieCarried(lib, a.items[i], b.items[i]); }
      }
      assert a.items == b.items;
    }
  }

  lemma {:induction false} NoCookieCarried(lib: Lib, a: Json, b: Json)
    requires VariantCookie(lib, a, b) && !CarriesCookie(lib, a)
    ensures a == b
    decreases a
  {
    forall i | 0 <= i < |a.fields| ensures a.fields[i] == b.fields[i] {
      NoneCarried(lib, a.fields[i], b.fields[i]);
    }
    assert a.fields == b.fields;
  }

  lemma {:induction false} NoHeadersCarried(lib: Lib, a: Json, b: Json)
    requires VariantHeaders(lib, a, b) && !CarriesHeaders(lib, a)
    ensures a == b
    decreases a
  {
    if a.Obj? && b.Obj? && |a.fields| == |b.fields| {
      forall i | 0 <= i < |a.fields| ensures a.fields[i] == b.fields[i] {
        if a != b { NoneCarried(lib, a.fields[i], b.fields[i]); }
      }
      assert a.fields == b.fields;
    }
  }

  // ---- a body with no exposed credential is logged like all its variants ----

  lemma CookieUnexposed(lib: Lib, a: Json, b: Json)
    requires VariantCookie(lib, a, b) && !ExposedCookie(lib, a)
    ensures AlikeCookie(a, b)
  {
    if a.Obj? {
      forall i | 0 <= i < |a.fields| && a.fields[i].key != "value" ensures a.fields[i] == b.fields[i] {
        assert !ExposedAttribute(lib, a.fields[i]) && VariantField(lib, a.fields[i], b.fields[i]);
        NoneCarried(lib, a.fields[i], b.fields[i]);
      }
    }
  }

  lemma CookiesUnexposed(lib: Lib, a: Json, b: Json)
    requires VariantCookies(lib, a, b)
    requires a.Arr? ==> forall i | 0 <= i < |a.items| :: !ExposedCookie(lib, a.items[i])
    ensures AlikeCookies(a, b)
  {
    if a != b && a.Arr? {
      forall i | 0 <= i < |a.items| ensures AlikeCookie(a.items[i], b.items[i]) {
        CookieUnexposed(lib, a.items[i], b.items[i]);
      }
    }
  }

  lemma HeadersUnexposed(lib: Lib, a: Json, b: Json)
    requires VariantHeaders(lib, a, b)
    requires a.Obj? ==> forall i | 0 <= i < |a.fields| :: !ExposedHeader(lib, a.fields[i])
    ensures AlikeHeaders(lib, a, b)
  {
    if a != b && a.Obj? {
      forall i | 0 <= i < |a.fields| && !IsCredential(lib, a.fields[i].key) ensures a.fields[i] == b.fields[i] {
        assert !ExposedHeader(lib, a.fields[i]) && VariantField(lib, a.fields[i], b.fields[i]);
        NoneCarried(lib, a.fields[i], b.fields[i]);
      }
    }
  }

  lemma {:induction false} Unexposed(lib: Lib, a: Json, b: Json)
    requires Variant(lib, a, b) && !Exposed(lib, a)
    ensures Alike(lib, a, b)
    decreases a
  {
    match a
    case Arr(items) =>
      forall i | 0 <= i < |items| ensures Alike(lib, items[i], b.items[i]) { Unexposed(lib, items[i], b.items[i]); }
    case Obj(fields) =>
      forall i | 0 <= i < |fields| ensures AlikeField(lib, fields[i], b.fields[i]) {
        UnexposedField(lib, fields[i], b.fields[i]);
      }
    case _ =>
  }

  lemma {:induction false} UnexposedField(lib: Lib, a: Field, b: Field)
    requires VariantField(lib, a, b) && !ExposedField(lib, a)
    ensures AlikeField(lib, a, b)
    decreases a
  {
    if !BothSecret(a, b) {
      SecretsMatch(lib, a, b);
      if a.key == "cookies" { CookiesUnexposed(lib, a.value, b.value); }
      else if a.key == "headers" { HeadersUnexposed(lib, a.value, b.value); }
      else if a.key == "postData" { }
      else if a.key == "proxy" { UnexposedProxy(lib, a.value, b.value); }
      else if a.key == "url" { NothingCarried(lib, a.value, b.value); }
      else { Unexposed(lib, a.value, b.value); }
    }
  }

  /** Of two variants under a secret's key, both are secrets or neither is. */
  lemma SecretsMatch(lib: Lib, a: Field, b: Field)
    requires VariantField(lib, a, b) && !BothSecret(a, b)
    ensures !SecretHere(a)
  {
    if IsSecret(a.key) { VariantShape(lib, a.value, b.value); }
  }

  lemma {:induction false} UnexposedProxy(lib: Lib, a: Json, b: Json)
    requires Variant(lib, a, b)
    requires a.Obj? ==> forall i | 0 <= i < |a.fields| :: !ExposedProxyField(lib, a.fields[i])
    ensures AlikeProxy(lib, a, b)
    decreases a
  {
    VariantShape(lib, a, b);
    if a.Obj? {
      forall i | 0 <= i < |a.fields| ensures AlikeProxyField(lib, a.fields[i], b.fields[i]) {
        UnexposedProxyField(lib, a.fields[i], b.fields[i]);
      }
    }
  }

  lemma {:induction false} UnexposedProxyField(lib: Lib, a: Field, b: Field)
    requires VariantField(lib, a, b) && !ExposedProxyField(lib, a)
    ensures AlikeProxyField(lib, a, b)
    decreases a
  {
    if !BothSecret(a, b) {
      SecretsMatch(lib, a, b);
      if a.key == "url" { VariantShape(lib, a.value, b.value); }
      else if a.key == "cookies" { UnexposedBareCookies(lib, a.value, b.value); }
      else if a.key == "headers" { UnexposedBareHeaders(lib, a.value, b.value); }
      else if a.key == "postData" { NoFormValues(a.value, b.value); }
      else { Unexposed(lib, a.value, b.value); }
    }
  }

  lemma {:induction false} UnexposedBareCookies(lib: Lib, a: Json, b: Json)
    requires VariantCookies(lib, a, b) && !ExposedBareCookies(lib, a)
    ensures Alike(lib, a, b)
    decreases a
  {
    if a != b && a.Arr? {
      forall i | 0 <= i < |a.items| ensures Alike(lib, a.items[i], b.items[i]) {
        UnexposedBareCookie(lib, a.items[i], b.items[i]);
      }
    }
  }

  lemma {:induction false} UnexposedBareCookie(lib: Lib, a: Json, b: Json)
    requires VariantCookie(lib, a, b) && !ExposedBareCookie(lib, a)
    ensures Alike(lib, a, b)
    decreases a
  {
    forall i | 0 <= i < |a.fields| ensures AlikeField(lib, a.fields[i], b.fields[i]) {
      UnexposedField(lib, a.fields[i], b.fields[i]);
    }
  }

  lemma {:induction false} UnexposedBareHeaders(lib: Lib, a: Json, b: Json)
    requires VariantHeaders(lib, a, b) && !ExposedBareHeaders(lib, a)
    ensures Alike(lib, a, b)
    decreases a
  {
    if a != b && a.Obj? {
      forall i | 0 <= i < |a.fields| ensures AlikeField(lib, a.fields[i], b.fields[i]) {
        UnexposedField(lib, a.fields[i], b.fields[i]);
      }
    }
  }
}
