/** The auto-submitting form for a POST (src/postform.py), and what reading it back gives. */
module PostForm {
  import opened Basics
  import opened Text
  import opened Percent
  import opened Markup

  datatype Field = Field(name: string, value: string)

  const SLASH := "/"   // what quote leaves alone besides the unreserved characters

  /** _attr: escaped first and percent-encoded second. */
  function AttrText(text: string): string {
    Quote(Escape(text), SLASH)
  }

  // ---- the urlencoded body ----

  function FieldOf(pair: string): Field {
    var i := IndexOf(pair, '=');
    Field(Unquote(pair[..i]), if i == |pair| then "" else Unquote(pair[i + 1..]))
  }

  function Kept(fields: seq<Field>): seq<Field> {
    if fields == [] then []
    else (if fields[0].name == "submit" then [] else [fields[0]]) + Kept(fields[1..])
  }

  function Decoded(pairs: seq<string>): seq<Field> {
    if pairs == [] then [] else [FieldOf(pairs[0])] + Decoded(pairs[1..])
  }

  function QueryString(postData: Option<string>): string {
    match postData
    case None => ""
    case Some(s) => if s != "" && s[0] == '?' then s[1..] else s
  }

  /** The decoded (name, value) fields in order, minus those named submit. */
  function FieldsOf(postData: Option<string>): seq<Field> {
    Kept(Decoded(Split(QueryString(postData), '&')))
  }

  // ---- the document, as the pieces a parser sees ----

  datatype Piece = Words(text: string) | Doctype | Element(tag: Tag)

  function Write(p: Piece, text: string -> string): string {
    match p
    case Words(s) => s
    case Doctype => DOCTYPE
    case Element(t) => WriteTag(t, text)
  }

  function WriteAll(ps: seq<Piece>, text: string -> string): string {
    if ps == [] then "" else Write(ps[0], text) + WriteAll(ps[1..], text)
  }

  function TagOf(p: Piece): seq<Tag> {
    match p case Words(_) => [] case Doctype => [DOCTYPE_TAG] case Element(t) => [t]
  }

  function TagsOf(ps: seq<Piece>): seq<Tag> {
    if ps == [] then [] else TagOf(ps[0]) + TagsOf(ps[1..])
  }

  function Bare(name: string): Piece { Element(Tag(name, [])) }

  function FormTag(url: string): Tag {
    Tag("form", [Attr("id", "hackForm"), Attr("action", url), Attr("method", "POST")])
  }

  function InputTag(f: Field): Tag {
    Tag("input", [Attr("type", "text"), Attr("name", f.name), Attr("value", f.value)])
  }

  function Inputs(fields: seq<Field>): seq<Piece> {
    if fields == [] then [] else [Element(InputTag(fields[0])), Bare("br")] + Inputs(fields[1..])
  }

  function FormPieces(url: string, fields: seq<Field>): seq<Piece> {
    [Element(FormTag(url))] + Inputs(fields) + [Bare("/form")]
  }

  const LINE := "\n        "
  const INDENTED := "\n            "
  const SCRIPT := "document.getElementById('hackForm').submit();"

  function Then(text: string, name: string): seq<Piece> { [Words(text), Bare(name)] }

  const HEAD: seq<Piece> := [Words(LINE), Doctype] + Then(LINE, "html") + Then(LINE, "body") + [Words(INDENTED)]
  const FOOT: seq<Piece> := Then(INDENTED, "script") + Then(SCRIPT, "/script") + Then(LINE, "/body") + Then(LINE, "/html")

  function Pieces(url: string, fields: seq<Field>): seq<Piece> {
    HEAD + FormPieces(url, fields) + FOOT
  }

  // ---- what a reader of the document finds ----

  datatype Form = Form(id: Option<string>, action: Option<string>, verb: Option<string>, fields: seq<Field>)

  function Lookup(attrs: seq<Attr>, key: string): Option<string> {
    if attrs == [] then None else if attrs[0].key == key then Some(attrs[0].value) else Lookup(attrs[1..], key)
  }

  function OrEmpty(o: Option<string>): string {
    match o case Some(s) => s case None => ""
  }

  /** The document from its first form tag on. */
  function FormOnward(tags: seq<Tag>): seq<Tag> {
    if tags == [] || tags[0].name == "form" then tags else FormOnward(tags[1..])
  }

  /** A text input's field. */
  function FieldIn(t: Tag): seq<Field> {
    if t.name == "input" && Lookup(t.attrs, "type") == Some("text")
    then [Field(OrEmpty(Lookup(t.attrs, "name")), OrEmpty(Lookup(t.attrs, "value")))] else []
  }

  /** The fields up to the form's end. */
  function InputsOf(tags: seq<Tag>): seq<Field> {
    if tags == [] || tags[0].name == "/form" then [] else FieldIn(tags[0]) + InputsOf(tags[1..])
  }

  /** A browser's order of reading: URL-decode the whole document, parse it, unescape its attributes. */
  function FormIn(document: string): Form {
    var tags := FormOnward(Tags(Unquote(document)));
    if tags == [] then Form(None, None, None, [])
    else Form(Lookup(tags[0].attrs, "id"), Lookup(tags[0].attrs, "action"), Lookup(tags[0].attrs, "method"), InputsOf(tags[1..]))
  }

  // ---- decoding and parsing, piece by piece ----

  ghost predicate Carried(p: Piece) {
    match p
    case Words(s) => PlainWords(s)
    case Doctype => true
    case Element(t) => Plain(t) && Unhashed(t.name) && forall i | 0 <= i < |t.attrs| :: CarriedAttr(t.attrs[i])
  }

  predicate PlainWords(s: string) {
    forall i | 0 <= i < |s| :: s[i] != '%' && s[i] != '#' && s[i] != '<'
  }

  ghost predicate CarriedAttr(a: Attr) {
    Unhashed(a.key) && IsBytes(a.value)
  }

  predicate Unhashed(s: string) {
    '%' !in s && '#' !in s
  }

  lemma AttrTextIsSealed(v: string)
    requires IsBytes(v)
    ensures Sealed(AttrText(v)) && Unquote(AttrText(v)) == Escape(v)
  {
    EscapedIsInert(v);
    UnquoteQuote(Escape(v), SLASH);
  }

  /** Of single bytes, exactly letters, digits, `_.-~` and the slash are written as they are. */
  lemma AttrKeeps(c: char)
    requires c as int < 256
    ensures AttrText([c]) == [c] <==>
              'a' <= c <= 'z' || 'A' <= c <= 'Z' || '0' <= c <= '9' || c == '_' || c == '.' || c == '-' || c == '~' || c == '/'
  {
    assert [c][1..] == "" && Escape([c]) == EscapeChar(c) + "" == EscapeChar(c);
    QuotedAs(c, SLASH);
    if c == '&' || c == '<' || c == '>' || c == '"' || c == '\'' {
      AttrTextIsSealed([c]);
      assert Unquote([c]) == [c] by { UnquoteOne(c); }
      assert |Escape([c])| > 1;
    }
  }

  lemma UnquoteThree(a: string, b: string, c: string)
    requires Sealed(a) && Sealed(b) && Sealed(c)
    ensures Sealed(a + b + c) && Unquote(a + b + c) == Unquote(a) + Unquote(b) + Unquote(c)
  {
    UnquoteAppend(a, b);
    UnquoteAppend(a + b, c);
  }

  lemma UnquoteAttr(a: Attr)
    requires CarriedAttr(a)
    ensures Sealed(WriteAttr(a, AttrText)) && Unquote(WriteAttr(a, AttrText)) == WriteAttr(a, Escape)
  {
    AttrTextIsSealed(a.value);
    var open := " " + a.key + "=\"";
    PlainIsSealed(open);
    PlainIsSealed("\"");
    UnquoteThree(open, AttrText(a.value), "\"");
  }

  lemma {:induction false} UnquoteAttrs(attrs: seq<Attr>, n: nat)
    requires n <= |attrs| && forall i | 0 <= i < |attrs| :: CarriedAttr(attrs[i])
    ensures Sealed(WriteAttrs(attrs, n, AttrText)) && Unquote(WriteAttrs(attrs, n, AttrText)) == WriteAttrs(attrs, n, Escape)
  {
    if n > 0 {
      UnquoteAttrs(attrs, n - 1);
      UnquoteAttr(attrs[n - 1]);
      UnquoteAppend(WriteAttrs(attrs, n - 1, AttrText), WriteAttr(attrs[n - 1], AttrText));
    }
  }

  lemma UnquotePiece(p: Piece)
    requires Carried(p)
    ensures Sealed(Write(p, AttrText)) && Unquote(Write(p, AttrText)) == Write(p, Escape)
  {
    match p
    case Words(s) => PlainIsSealed(s);
    case Doctype => PlainIsSealed(DOCTYPE);
    case Element(t) =>
      var open := "<" + t.name;
      var attrs := WriteAttrs(t.attrs, |t.attrs|, AttrText);
      PlainIsSealed(open);
      PlainIsSealed(">");
      UnquoteAttrs(t.attrs, |t.attrs|);
      UnquoteAppend(open, attrs);
      UnquoteAppend(open + attrs, ">");
  }

  ghost predicate AllCarried(ps: seq<Piece>) {
    forall i | 0 <= i < |ps| :: Carried(ps[i])
  }

  lemma {:induction false} UnquoteAll(ps: seq<Piece>)
    requires AllCarried(ps)
    ensures Sealed(WriteAll(ps, AttrText)) && Unquote(WriteAll(ps, AttrText)) == WriteAll(ps, Escape)
  {
    if ps != [] {
      UnquotePiece(ps[0]);
      UnquoteAll(ps[1..]);
      UnquoteAppend(Write(ps[0], AttrText), WriteAll(ps[1..], AttrText));
    }
  }

  lemma ReadPiece(tags: seq<Tag>, p: Piece)
    requires Carried(p)
    ensures Run(Between(tags), Write(p, Escape)) == Between(tags + TagOf(p))
  {
    match p
    case Words(s) =>
      RunText(tags, s);
      assert tags + [] == tags;
    case Doctype => ReadDoctype(tags);
    case Element(t) => ReadTag(tags, t);
  }

  lemma {:induction false} ReadAll(tags: seq<Tag>, ps: seq<Piece>)
    requires AllCarried(ps)
    ensures Run(Between(tags), WriteAll(ps, Escape)) == Between(tags + TagsOf(ps))
    decreases |ps|
  {
    if ps == [] {
      assert tags + [] == tags;
    } else {
      ReadPiece(tags, ps[0]);
      ReadAll(tags + TagOf(ps[0]), ps[1..]);
      ReadBoth(tags, Write(ps[0], Escape), WriteAll(ps[1..], Escape), TagOf(ps[0]), TagsOf(ps[1..]));
    }
  }

  // ---- the round trip ----

  ghost predicate FieldsAreBytes(fields: seq<Field>) {
    forall i | 0 <= i < |fields| :: IsBytes(fields[i].name) && IsBytes(fields[i].value)
  }

  lemma {:induction false} SplitIsBytes(s: string, c: char)
    requires IsBytes(s)
    ensures forall i | 0 <= i < |Split(s, c)| :: IsBytes(Split(s, c)[i])
    decreases |s|
  {
    var i := IndexOf(s, c);
    if i < |s| { SplitIsBytes(s[i + 1..], c); }
  }

  lemma {:induction false} DecodedIsBytes(pairs: seq<string>)
    requires forall i | 0 <= i < |pairs| :: IsBytes(pairs[i])
    ensures FieldsAreBytes(Decoded(pairs))
  {
    if pairs != [] {
      var i := IndexOf(pairs[0], '=');
      UnquoteIsBytes(pairs[0][..i]);
      if i < |pairs[0]| { UnquoteIsBytes(pairs[0][i + 1..]); }
      DecodedIsBytes(pairs[1..]);
    }
  }

  lemma {:induction false} KeptIsBytes(fields: seq<Field>)
    requires FieldsAreBytes(fields)
    ensures FieldsAreBytes(Kept(fields))
  {
    if fields != [] { KeptIsBytes(fields[1..]); }
  }

  lemma CarriedPair(a: Piece, b: Piece)
    requires Carried(a) && Carried(b)
    ensures AllCarried([a, b])
  {
  }

  lemma CarriedAppend(a: seq<Piece>, b: seq<Piece>)
    requires AllCarried(a) && AllCarried(b)
    ensures AllCarried(a + b)
  {
  }

  lemma {:induction false} InputsAreCarried(fields: seq<Field>)
    requires FieldsAreBytes(fields)
    ensures AllCarried(Inputs(fields))
  {
    if fields != [] {
      InputsAreCarried(fields[1..]);
      assert IsBytes(fields[0].name) && IsBytes(fields[0].value);
      InputIsCarried(fields[0]);
      CarriedAppend([Element(InputTag(fields[0])), Bare("br")], Inputs(fields[1..]));
    }
  }

  lemma InputIsCarried(f: Field)
    requires IsBytes(f.name) && IsBytes(f.value)
    ensures AllCarried([Element(InputTag(f)), Bare("br")])
  {
    CarriedPair(Element(InputTag(f)), Bare("br"));
  }

  lemma CarriedThen(text: string, name: string)
    requires Carried(Words(text)) && Word(name) && Unhashed(name)
    ensures AllCarried(Then(text, name))
  {
    CarriedPair(Words(text), Bare(name));
  }

  lemma HeadIsCarried()
    ensures AllCarried(HEAD)
  {
    CarriedPair(Words(LINE), Doctype);
    CarriedThen(LINE, "html");
    CarriedThen(LINE, "body");
    CarriedAppend([Words(LINE), Doctype], Then(LINE, "html"));
    CarriedAppend([Words(LINE), Doctype] + Then(LINE, "html"), Then(LINE, "body"));
  }

  lemma ScriptIsPlain()
    ensures Carried(Words(SCRIPT))
  {
    assert PlainWords("document.getElementById") && PlainWords("('hackForm').submit();");
    ScriptInTwo();
  }

  lemma ScriptInTwo()
    ensures SCRIPT == "document.getElementById" + "('hackForm').submit();"
  {
  }

  lemma FootIsCarried()
    ensures AllCarried(FOOT)
  {
    ScriptIsPlain();
    CarriedThen(INDENTED, "script");
    CarriedThen(SCRIPT, "/script");
    CarriedThen(LINE, "/body");
    CarriedThen(LINE, "/html");
    CarriedAppend(Then(INDENTED, "script"), Then(SCRIPT, "/script"));
    CarriedAppend(Then(INDENTED, "script") + Then(SCRIPT, "/script"), Then(LINE, "/body"));
    CarriedAppend(Then(INDENTED, "script") + Then(SCRIPT, "/script") + Then(LINE, "/body"), Then(LINE, "/html"));
  }

  lemma PiecesAreCarried(url: string, fields: seq<Field>)
    requires IsBytes(url) && FieldsAreBytes(fields)
    ensures AllCarried(Pieces(url, fields))
  {
    HeadIsCarried();
    FootIsCarried();
    InputsAreCarried(fields);
    FormIsCarried(url);
    CarriedAppend([Element(FormTag(url))], Inputs(fields));
    CarriedAppend([Element(FormTag(url))] + Inputs(fields), [Bare("/form")]);
    CarriedAppend(HEAD, FormPieces(url, fields));
    CarriedAppend(HEAD + FormPieces(url, fields), FOOT);
  }

  lemma FormIsCarried(url: string)
    requires IsBytes(url)
    ensures AllCarried([Element(FormTag(url))]) && AllCarried([Bare("/form")])
  {
    FormAttrsAreCarried(url);
    FormIsPlain(url);
    EndIsCarried();
  }

  lemma FormIsPlain(url: string)
    ensures Plain(FormTag(url)) && Unhashed(FormTag(url).name)
  {
  }

  lemma EndIsCarried()
    ensures Carried(Bare("/form"))
  {
  }

  lemma FormAttrsAreCarried(url: string)
    requires IsBytes(url)
    ensures forall i | 0 <= i < |FormTag(url).attrs| :: CarriedAttr(FormTag(url).attrs[i])
  {
    var attrs := FormTag(url).attrs;
    assert CarriedAttr(attrs[0]) && CarriedAttr(attrs[1]) && CarriedAttr(attrs[2]);
  }

  lemma {:induction false} TagsOfAppend(a: seq<Piece>, b: seq<Piece>)
    ensures TagsOf(a + b) == TagsOf(a) + TagsOf(b)
  {
    if a == [] {
      assert a + b == b;
    } else {
      assert (a + b)[1..] == a[1..] + b;
      TagsOfAppend(a[1..], b);
    }
  }

  lemma InputIsRead(f: Field)
    ensures FieldIn(InputTag(f)) == [f] && FieldIn(Tag("br", [])) == []
  {
    var attrs := InputTag(f).attrs;
    assert attrs[1..][0] == Attr("name", f.name) && attrs[1..][1..][0] == Attr("value", f.value);
    assert Lookup(attrs, "type") == Some("text");
    assert Lookup(attrs[1..], "name") == Some(f.name);
    assert Lookup(attrs[1..][1..], "value") == Some(f.value);
    assert Lookup(attrs[1..], "value") == Some(f.value);
  }

  lemma OneInputRead(f: Field, rest: seq<Tag>)
    ensures InputsOf([InputTag(f), Tag("br", [])] + rest) == [f] + InputsOf(rest)
  {
    var tags := [InputTag(f), Tag("br", [])] + rest;
    assert tags[1..] == [Tag("br", [])] + rest && tags[1..][1..] == rest;
    InputIsRead(f);
    assert InputsOf(tags[1..]) == [] + InputsOf(rest);
  }

  lemma {:induction false} InputsAreRead(fields: seq<Field>, after: seq<Tag>)
    requires after != [] && after[0].name == "/form"
    ensures InputsOf(TagsOf(Inputs(fields)) + after) == fields
  {
    if fields == [] {
      assert [] + after == after;
    } else {
      var own, more := [InputTag(fields[0]), Tag("br", [])], TagsOf(Inputs(fields[1..]));
      InputTags(fields);
      assert own + more + after == own + (more + after);
      OneInputRead(fields[0], more + after);
      InputsAreRead(fields[1..], after);
    }
  }

  lemma InputTags(fields: seq<Field>)
    requires fields != []
    ensures TagsOf(Inputs(fields)) == [InputTag(fields[0]), Tag("br", [])] + TagsOf(Inputs(fields[1..]))
  {
    var own := [Element(InputTag(fields[0])), Bare("br")];
    assert own[1..] == [Bare("br")] && own[1..][1..] == [];
    assert TagsOf(own[1..]) == [Tag("br", [])];
    assert TagsOf(own) == [InputTag(fields[0]), Tag("br", [])];
    TagsOfAppend(own, Inputs(fields[1..]));
  }

  lemma ReadThen(text: string, name: string)
    ensures TagsOf(Then(text, name)) == [Tag(name, [])]
  {
    assert Then(text, name)[1..] == [Bare(name)] && [Bare(name)][1..] == [];
    assert TagsOf([Bare(name)]) == [Tag(name, [])];
  }

  lemma HeadIsRead()
    ensures TagsOf(HEAD) == [DOCTYPE_TAG, Tag("html", []), Tag("body", [])]
  {
    var doctype := [Words(LINE), Doctype];
    assert doctype[1..] == [Doctype] && [Doctype][1..] == [] && [Words(INDENTED)][1..] == [];
    assert TagsOf([Doctype]) == [DOCTYPE_TAG];
    ReadThen(LINE, "html");
    ReadThen(LINE, "body");
    TagsOfAppend(doctype + Then(LINE, "html") + Then(LINE, "body"), [Words(INDENTED)]);
    TagsOfAppend(doctype + Then(LINE, "html"), Then(LINE, "body"));
    TagsOfAppend(doctype, Then(LINE, "html"));
  }

  lemma {:induction false} FormAfter(a: seq<Tag>, b: seq<Tag>)
    requires forall i | 0 <= i < |a| :: a[i].name != "form"
    ensures FormOnward(a + b) == FormOnward(b)
  {
    if a == [] {
      assert a + b == b;
    } else {
      assert (a + b)[1..] == a[1..] + b;
      FormAfter(a[1..], b);
    }
  }

  lemma ReadFormTag(url: string)
    ensures var attrs := FormTag(url).attrs;
            Lookup(attrs, "id") == Some("hackForm") && Lookup(attrs, "action") == Some(url) && Lookup(attrs, "method") == Some("POST")
  {
    var attrs := FormTag(url).attrs;
    assert attrs[1..][0] == Attr("action", url) && attrs[1..][1..][0] == Attr("method", "POST");
    assert Lookup(attrs[1..], "action") == Some(url);
    assert Lookup(attrs[1..][1..], "method") == Some("POST");
    assert Lookup(attrs[1..], "method") == Some("POST");
  }

  lemma ReadForm(url: string, fields: seq<Field>)
    ensures var tags := FormOnward(TagsOf(Pieces(url, fields)));
            tags != [] && tags[0] == FormTag(url) && InputsOf(tags[1..]) == fields
  {
    var open, shut := [FormTag(url)], [Tag("/form", [])] + TagsOf(FOOT);
    var inputs := TagsOf(Inputs(fields));
    TagsOfPieces(url, fields);
    HeadIsRead();
    assert TagsOf(HEAD) + (open + inputs + [Tag("/form", [])]) + TagsOf(FOOT) == TagsOf(HEAD) + (open + (inputs + shut));
    FormAfter(TagsOf(HEAD), open + (inputs + shut));
    assert (open + (inputs + shut))[1..] == inputs + shut;
    InputsAreRead(fields, shut);
  }

  lemma TagsOfPieces(url: string, fields: seq<Field>)
    ensures TagsOf(Pieces(url, fields))
         == TagsOf(HEAD) + ([FormTag(url)] + TagsOf(Inputs(fields)) + [Tag("/form", [])]) + TagsOf(FOOT)
  {
    var form, end := [Element(FormTag(url))], [Bare("/form")];
    assert form[1..] == [] && end[1..] == [];
    assert TagsOf([]) == [] && TagOf(form[0]) == [FormTag(url)] && TagOf(end[0]) == [Tag("/form", [])];
    assert TagsOf(form) == [FormTag(url)] && TagsOf(end) == [Tag("/form", [])];
    TagsOfAppend(HEAD + FormPieces(url, fields), FOOT);
    TagsOfAppend(HEAD, FormPieces(url, fields));
    TagsOfAppend(form + Inputs(fields), end);
    TagsOfAppend(form, Inputs(fields));
  }

  /** The document's reader gets back the url and the fields, whatever bytes they hold. */
  lemma PostRoundTrip(url: string, postData: Option<string>)
    requires IsBytes(url) && IsBytes(OrEmpty(postData))
    ensures var document := WriteAll(Pieces(url, FieldsOf(postData)), AttrText);
            Sealed(document) && FormIn(document) == Form(Some("hackForm"), Some(url), Some("POST"), FieldsOf(postData))
  {
    var fields := FieldsOf(postData);
    SplitIsBytes(QueryString(postData), '&');
    DecodedIsBytes(Split(QueryString(postData), '&'));
    KeptIsBytes(Decoded(Split(QueryString(postData), '&')));
    PiecesAreCarried(url, fields);
    UnquoteAll(Pieces(url, fields));
    ReadAll([], Pieces(url, fields));
    assert [] + TagsOf(Pieces(url, fields)) == TagsOf(Pieces(url, fields));
    ReadForm(url, fields);
    ReadFormTag(url);
  }
}
