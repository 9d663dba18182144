/** Redaction does not depend on what it hides, keeps every key, and exactly which secrets it cannot see. */
module Redaction {
  import opened Text
  import opened Redact

  // ---- bodies that differ only in what is to be hidden ----

  predicate SameKeys(a: seq<Field>, b: seq<Field>) {
    |a| == |b| && forall i | 0 <= i < |a| :: a[i].key == b[i].key
  }

  /** Both are credentials under a key of their own: which ones, and of what shape, is nobody's business. */
  predicate BothSecret(a: Field, b: Field) {
    a.key == b.key && IsSecret(a.key) && Truthy(a.value) && Truthy(b.value)
  }

  predicate AlikeUrl(lib: Lib, a: Json, b: Json) {
    a == b || (a.Str? && b.Str? && lib.url(a.s) == lib.url(b.s))
  }

  /** Proxy URLs with a password that urlsplit finds and takes out, or ones still shaped like userinfo after that. */
  predicate AlikeProxyUrl(lib: Lib, a: string, b: string) {
    a == b
    || (a != "" && b != "" && lib.url(a) != a && lib.url(b) != b && lib.url(a) == lib.url(b))
    || (a != "" && b != "" && lib.url(a) == a && lib.url(b) == b && LooksLikeUserinfo(a) && LooksLikeUserinfo(b))
  }

  predicate AlikeCookie(a: Json, b: Json) {
    if a.Obj? && b.Obj?
    then SameKeys(a.fields, b.fields)
         && forall i | 0 <= i < |a.fields| :: a.fields[i].key != "value" ==> a.fields[i] == b.fields[i]
    else !a.Obj? && !b.Obj?
  }

  predicate AlikeCookies(a: Json, b: Json) {
    || a == b
    || (a.Str? && b.Str?)
    || (a.Obj? && b.Obj? && SameKeys(a.fields, b.fields))
    || (a.Arr? && b.Arr? && |a.items| == |b.items| && forall i | 0 <= i < |a.items| :: AlikeCookie(a.items[i], b.items[i]))
  }

  predicate AlikeHeaders(lib: Lib, a: Json, b: Json) {
    || a == b
    || (a.Obj? && b.Obj? && SameKeys(a.fields, b.fields)
        && forall i | 0 <= i < |a.fields| :: !IsCredential(lib, a.fields[i].key) ==> a.fields[i] == b.fields[i])
    || (!a.Obj? && !b.Obj? && !IsBlank(a) && !IsBlank(b))
  }

  /** The same name, and a value each. */
  predicate AlikePair(a: string, b: string) {
    a == b
    || (var i, j := IndexOf(a, '='), IndexOf(b, '='); i < |a| && j < |b| && a[..i] == b[..j])
  }

  predicate AlikeForm(a: string, b: string) {
    a == b
    || (a != "" && b != "" && var p, q := Split(a, '&'), Split(b, '&');
        |p| == |q| && forall i | 0 <= i < |p| :: AlikePair(p[i], q[i]))
  }

  predicate AlikePostData(a: Json, b: Json) {
    || a == b
    || (a.Str? && b.Str? && AlikeForm(a.s, b.s))
    || (a.Obj? && b.Obj? && SameKeys(a.fields, b.fields))
    || (a.Arr? && b.Arr?)
  }

  predicate Alike(lib: Lib, a: Json, b: Json)
    decreases a
  {
    || a == b
    || (a.Arr? && b.Arr? && |a.items| == |b.items|
        && forall i | 0 <= i < |a.items| :: Alike(lib, a.items[i], b.items[i]))
    || (a.Obj? && b.Obj? && |a.fields| == |b.fields|
        && forall i | 0 <= i < |a.fields| :: AlikeField(lib, a.fields[i], b.fields[i]))
  }

  predicate AlikeField(lib: Lib, a: Field, b: Field)
    decreases a
  {
    a.key == b.key && (
      || BothSecret(a, b)
      || (if a.key == "cookies" then AlikeCookies(a.value, b.value)
          else if a.key == "headers" then AlikeHeaders(lib, a.value, b.value)
          else if a.key == "postData" then AlikePostData(a.value, b.value)
          else if a.key == "proxy" then AlikeProxy(lib, a.value, b.value)
          else if a.key == "url" then AlikeUrl(lib, a.value, b.value)
          else Alike(lib, a.value, b.value)))
  }

  predicate AlikeProxy(lib: Lib, a: Json, b: Json)
    decreases a
  {
    || a == b
    || (a.Str? && b.Str? && AlikeProxyUrl(lib, a.s, b.s))
    || (a.Obj? && b.Obj? && |a.fields| == |b.fields|
        && forall i | 0 <= i < |a.fields| :: AlikeProxyField(lib, a.fields[i], b.fields[i]))
    || (!a.Str? && !b.Str? && !a.Obj? && !b.Obj? && !IsBlank(a) && !IsBlank(b))
  }

  predicate AlikeProxyField(lib: Lib, a: Field, b: Field)
    decreases a
  {
    a.key == b.key && (
      || BothSecret(a, b)
      || (if a.key == "url"
          then (a.value.Str? && b.value.Str? && AlikeProxyUrl(lib, a.value.s, b.value.s)) || (!a.value.Str? && !b.value.Str?)
          else Alike(lib, a.value, b.value)))
  }

  // ---- one rule at a time ----

  lemma HiddenSame(a: seq<Field>, b: seq<Field>)
    requires SameKeys(a, b)
    ensures Hidden(a) == Hidden(b)
  {
  }

  lemma CookieSame(a: Json, b: Json)
    requires AlikeCookie(a, b)
    ensures Cookie(a) == Cookie(b)
  {
  }

  lemma CookiesSame(a: Json, b: Json)
    requires AlikeCookies(a, b)
    ensures Cookies(a) == Cookies(b)
  {
    if a.Obj? && b.Obj? && SameKeys(a.fields, b.fields) {
      HiddenSame(a.fields, b.fields);
    } else if a.Arr? && a != b {
      forall i | 0 <= i < |a.items| ensures Cookie(a.items[i]) == Cookie(b.items[i]) {
        CookieSame(a.items[i], b.items[i]);
      }
    }
  }

  lemma HeadersSame(lib: Lib, a: Json, b: Json)
    requires AlikeHeaders(lib, a, b)
    ensures Headers(lib, a) == Headers(lib, b)
  {
  }

  lemma {:induction false} FormPairsSame(p: seq<string>, q: seq<string>)
    requires |p| == |q| && forall i | 0 <= i < |p| :: AlikePair(p[i], q[i])
    ensures FormPairs(p) == FormPairs(q)
  {
    if p != [] {
      assert AlikePair(p[0], q[0]);
      FormPairsSame(p[1..], q[1..]);
    }
  }

  lemma PostDataSame(a: Json, b: Json)
    requires AlikePostData(a, b)
    ensures PostData(a) == PostData(b)
  {
    if a.Str? && b.Str? && a != b {
      FormPairsSame(Split(a.s, '&'), Split(b.s, '&'));
    } else if a.Obj? && b.Obj? && a != b {
      HiddenSame(a.fields, b.fields);
    }
  }

  // ---- the walk ----

  /** Two logged bodies that differ only in what is to be hidden, however deep, are logged alike. */
  lemma {:induction false} SameOutput(lib: Lib, a: Json, b: Json)
    requires Alike(lib, a, b)
    ensures Body(lib, a) == Body(lib, b)
    decreases a
  {
    if a == b {
    } else if a.Arr? {
      forall i | 0 <= i < |a.items| ensures Body(lib, a.items[i]) == Body(lib, b.items[i]) {
        SameOutput(lib, a.items[i], b.items[i]);
      }
    } else {
      forall i | 0 <= i < |a.fields|
        ensures a.fields[i].key == b.fields[i].key && BodyField(lib, a.fields[i]) == BodyField(lib, b.fields[i])
      {
        SameField(lib, a.fields[i], b.fields[i]);
      }
    }
  }

  lemma {:induction false} SameField(lib: Lib, a: Field, b: Field)
    requires AlikeField(lib, a, b)
    ensures BodyField(lib, a) == BodyField(lib, b)
    decreases a
  {
    if !BothSecret(a, b) {
      if a.key == "cookies" { CookiesSame(a.value, b.value); }
      else if a.key == "headers" { HeadersSame(lib, a.value, b.value); }
      else if a.key == "postData" { PostDataSame(a.value, b.value); }
      else if a.key == "proxy" { SameProxy(lib, a.value, b.value); }
      else if a.key != "url" { SameOutput(lib, a.value, b.value); }
    }
  }

  lemma {:induction false} SameProxy(lib: Lib, a: Json, b: Json)
    requires AlikeProxy(lib, a, b)
    ensures Proxy(lib, a) == Proxy(lib, b)
    decreases a
  {
    if a != b && a.Obj? {
      forall i | 0 <= i < |a.fields|
        ensures a.fields[i].key == b.fields[i].key && ProxyField(lib, a.fields[i]) == ProxyField(lib, b.fields[i])
      {
        SameProxyField(lib, a.fields[i], b.fields[i]);
      }
    }
  }

  lemma {:induction false} SameProxyField(lib: Lib, a: Field, b: Field)
    requires AlikeProxyField(lib, a, b)
    ensures ProxyField(lib, a) == ProxyField(lib, b)
    decreases a
  {
    if !BothSecret(a, b) && a.key != "url" { SameOutput(lib, a.value, b.value); }
  }

  // ---- what is kept ----

  function NameOf(pair: string): string { pair[..IndexOf(pair, '=')] }

  /** As many pairs, each with its own name. */
  predicate SameNames(a: string, b: string) {
    var p, q := Split(a, '&'), Split(b, '&');
    |p| == |q| && forall i | 0 <= i < |p| :: NameOf(p[i]) == NameOf(q[i])
  }

  lemma FormPairKeepsName(pair: string)
    requires '&' !in pair
    ensures NameOf(FormPair(pair)) == NameOf(pair) && '&' !in FormPair(pair)
  {
    var i := IndexOf(pair, '=');
    if i < |pair| {
      IndexOfFirst(pair[..i], '=', REDACTED.s);
      assert FormPair(pair)[..i] == pair[..i];
    }
  }

  lemma {:induction false} FormPairsKeepNames(pairs: seq<string>)
    requires pairs != [] && forall i | 0 <= i < |pairs| :: '&' !in pairs[i]
    ensures var q := Split(FormPairs(pairs), '&');
            |q| == |pairs| && forall i | 0 <= i < |pairs| :: NameOf(q[i]) == NameOf(pairs[i])
  {
    FormPairKeepsName(pairs[0]);
    if |pairs| == 1 {
      SplitFirst(FormPair(pairs[0]), '&', "");
    } else {
      SplitFirst(FormPair(pairs[0]), '&', FormPairs(pairs[1..]));
      FormPairsKeepNames(pairs[1..]);
    }
  }

  lemma FormKeepsNames(s: string)
    ensures SameNames(s, Form(s))
  {
    if s != "" {
      SplitKeepsOut(s, '&');
      FormPairsKeepNames(Split(s, '&'));
    }
  }

  predicate KeepsCookie(v: Json, out: Json) {
    v.Obj? ==> out.Obj? && SameKeys(v.fields, out.fields)
               && forall i | 0 <= i < |v.fields| :: v.fields[i].key != "value" ==> out.fields[i] == v.fields[i]
  }

  predicate KeepsCookies(v: Json, out: Json) {
    match v
    case Arr(items) => out.Arr? && |out.items| == |items| && forall i | 0 <= i < |items| :: KeepsCookie(items[i], out.items[i])
    case Obj(fields) => out.Obj? && SameKeys(fields, out.fields)
    case Str(_) => out == REDACTED
    case _ => out == v
  }

  predicate KeepsHeaders(lib: Lib, v: Json, out: Json) {
    if v.Obj? then
      out.Obj? && SameKeys(v.fields, out.fields)
      && forall i | 0 <= i < |v.fields| :: !IsCredential(lib, v.fields[i].key) ==> out.fields[i] == v.fields[i]
    else out == if IsBlank(v) then v else REDACTED
  }

  predicate KeepsPostData(v: Json, out: Json) {
    match v
    case Str(s) => out.Str? && SameNames(s, out.s)
    case Obj(fields) => out.Obj? && SameKeys(fields, out.fields)
    case Arr(_) => out == REDACTED
    case _ => out == v
  }

  predicate KeepsUrl(v: Json, out: Json) {
    if v.Str? then out.Str? else out == v
  }

  /** Every key and every plain value is in the output, outside the fields replaced whole. */
  predicate Keeps(lib: Lib, v: Json, out: Json)
    decreases v
  {
    match v
    case Arr(items) => out.Arr? && |out.items| == |items| && forall i | 0 <= i < |items| :: Keeps(lib, items[i], out.items[i])
    case Obj(fields) =>
      out.Obj? && SameKeys(fields, out.fields) && forall i | 0 <= i < |fields| :: KeepsField(lib, fields[i], out.fields[i].value)
    case _ => out == v
  }

  predicate KeepsField(lib: Lib, f: Field, out: Json)
    decreases f
  {
    if IsSecret(f.key) && Truthy(f.value) then out == REDACTED
    else if f.key == "cookies" then KeepsCookies(f.value, out)
    else if f.key == "headers" then KeepsHeaders(lib, f.value, out)
    else if f.key == "postData" then KeepsPostData(f.value, out)
    else if f.key == "proxy" then KeepsProxy(lib, f.value, out)
    else if f.key == "url" then KeepsUrl(f.value, out)
    else Keeps(lib, f.value, out)
  }

  predicate KeepsProxy(lib: Lib, v: Json, out: Json)
    decreases v
  {
    match v
    case Str(_) => out.Str?
    case Obj(fields) =>
      out.Obj? && SameKeys(fields, out.fields) && forall i | 0 <= i < |fields| :: KeepsProxyField(lib, fields[i], out.fields[i].value)
    case _ => out == if IsBlank(v) then v else REDACTED
  }

  predicate KeepsProxyField(lib: Lib, f: Field, out: Json)
    decreases f
  {
    if IsSecret(f.key) && Truthy(f.value) then out == REDACTED
    else if f.key == "url" then out.Str?
    else Keeps(lib, f.value, out)
  }

  lemma {:induction false} KeysAreKept(lib: Lib, v: Json)
    ensures Keeps(lib, v, Body(lib, v))
    decreases v
  {
    match v
    case Arr(items) =>
      forall i | 0 <= i < |items| ensures Keeps(lib, items[i], Body(lib, items[i])) {
        KeysAreKept(lib, items[i]);
      }
    case Obj(fields) =>
      forall i | 0 <= i < |fields| ensures KeepsField(lib, fields[i], BodyField(lib, fields[i])) {
        FieldIsKept(lib, fields[i]);
      }
    case _ =>
  }

  lemma {:induction false} FieldIsKept(lib: Lib, f: Field)
    ensures KeepsField(lib, f, BodyField(lib, f))
    decreases f
  {
    if IsSecret(f.key) && Truthy(f.value) {
    } else if f.key == "cookies" || f.key == "headers" || f.key == "url" {
    } else if f.key == "postData" {
      if f.value.Str? { FormKeepsNames(f.value.s); }
    } else if f.key == "proxy" {
      ProxyIsKept(lib, f.value);
    } else {
      KeysAreKept(lib, f.value);
    }
  }

  lemma {:induction false} ProxyIsKept(lib: Lib, v: Json)
    ensures KeepsProxy(lib, v, Proxy(lib, v))
    decreases v
  {
    if v.Obj? {
      forall i | 0 <= i < |v.fields| ensures KeepsProxyField(lib, v.fields[i], ProxyField(lib, v.fields[i])) {
        KeysAreKept(lib, v.fields[i].value);
      }
    }
  }
}
