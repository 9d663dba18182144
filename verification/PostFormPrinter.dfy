/** build_post_html (src/postform.py:34-61), and that its document reads back as exactly what was asked for. */
module PostFormPrinter {
  import opened Basics
  import opened Text
  import opened Percent
  import opened Markup
  import opened PostForm

  // ---- the printer ----

  lemma AttrTextPlain(s: string)
    requires forall i | 0 <= i < |s| :: Unreserved(s[i])
    ensures AttrText(s) == s
  {
    EscapeUnreserved(s);
    QuoteUnreserved(s, SLASH);
  }

  lemma {:induction false} WriteAllAppend(a: seq<Piece>, b: seq<Piece>, text: string -> string)
    ensures WriteAll(a + b, text) == WriteAll(a, text) + WriteAll(b, text)
  {
    if a == [] {
      assert a + b == b;
    } else {
      assert (a + b)[1..] == a[1..] + b;
      WriteAllAppend(a[1..], b, text);
    }
  }

  function InputText(f: Field): string {
    "<input type=\"text\" name=\"" + AttrText(f.name) + "\" value=\"" + AttrText(f.value) + "\"><br>"
  }

  function FormText(url: string): string {
    "<form id=\"hackForm\" action=\"" + AttrText(url) + "\" method=\"POST\">"
  }

  lemma Attach(x: string, p: string, v: string, q: string)
    ensures x + (p + v + q) == x + p + v + q
  {
    assert x + (p + v) == x + p + v;
    assert x + ((p + v) + q) == (x + (p + v)) + q;
  }

  lemma Join(a: string, b: string, c: string)
    ensures a + b + c == a + (b + c)
  {
  }

  lemma WriteThree(name: string, a: Attr, b: Attr, c: Attr, text: string -> string)
    ensures WriteTag(Tag(name, [a, b, c]), text)
         == "<" + name + WriteAttr(a, text) + WriteAttr(b, text) + WriteAttr(c, text) + ">"
  {
    var attrs := [a, b, c];
    assert WriteAttrs(attrs, 0, text) == "";
    assert WriteAttrs(attrs, 1, text) == WriteAttr(a, text);
    assert WriteAttrs(attrs, 2, text) == WriteAttr(a, text) + WriteAttr(b, text);
    assert WriteAttrs(attrs, 3, text) == WriteAttr(a, text) + WriteAttr(b, text) + WriteAttr(c, text);
  }

  lemma WriteBare(name: string, text: string -> string)
    ensures Write(Bare(name), text) == "<" + name + ">"
  {
    assert WriteAttrs([], 0, text) == "";
  }

  lemma InputParts(n: string, v: string)
    ensures "<" + "input" + (" " + "type" + "=\"" + "text" + "\"") + (" " + "name" + "=\"" + n + "\"")
          + (" " + "value" + "=\"" + v + "\"") + ">" + ("<" + "br" + ">")
         == "<input type=\"text\" name=\"" + n + "\" value=\"" + v + "\"><br>"
  {
    var start := "<input type=\"text\"";
    assert "<" + "input" + (" " + "type" + "=\"" + "text" + "\"") == start;
    assert " " + "name" + "=\"" == " name=\"";
    assert " " + "value" + "=\"" == " value=\"";
    assert "<" + "br" + ">" == "<br>";
    Attach(start, " name=\"", n, "\"");
    var named := start + " name=\"" + n;
    assert start + " name=\"" == "<input type=\"text\" name=\"";
    Attach(named + "\"", " value=\"", v, "\"");
    Join(named, "\"", " value=\"");
    assert "\"" + " value=\"" == "\" value=\"";
    var valued := named + "\" value=\"" + v;
    Join(valued + "\"", ">", "<br>");
    Join(valued, "\"", "><br>");
    assert ">" + "<br>" == "><br>";
    assert "\"" + "><br>" == "\"><br>";
  }

  lemma FormParts(u: string)
    ensures "<" + "form" + (" " + "id" + "=\"" + "hackForm" + "\"") + (" " + "action" + "=\"" + u + "\"")
          + (" " + "method" + "=\"" + "POST" + "\"") + ">"
         == "<form id=\"hackForm\" action=\"" + u + "\" method=\"POST\">"
  {
    var start := "<form id=\"hackForm\"";
    assert "<" + "form" + (" " + "id" + "=\"" + "hackForm" + "\"") == start;
    assert " " + "action" + "=\"" == " action=\"";
    assert " " + "method" + "=\"" + "POST" + "\"" == " method=\"POST\"";
    Attach(start, " action=\"", u, "\"");
    var acted := start + " action=\"" + u;
    assert start + " action=\"" == "<form id=\"hackForm\" action=\"";
    Join(acted, "\"", " method=\"POST\"");
    assert "\"" + " method=\"POST\"" == "\" method=\"POST\"";
    Join(acted, "\" method=\"POST\"", ">");
    assert "\" method=\"POST\"" + ">" == "\" method=\"POST\">";
  }

  /** The input's tag and its line break, as the printer's literals spell them. */
  lemma InputIsItsTags(f: Field)
    ensures Write(Element(InputTag(f)), AttrText) + Write(Bare("br"), AttrText) == InputText(f)
  {
    WriteThree("input", Attr("type", "text"), Attr("name", f.name), Attr("value", f.value), AttrText);
    WriteBare("br", AttrText);
    TypeText("text");
    InputParts(AttrText(f.name), AttrText(f.value));
  }

  lemma FormIsItsTag(url: string)
    ensures Write(Element(FormTag(url)), AttrText) == FormText(url)
  {
    WriteThree("form", Attr("id", "hackForm"), Attr("action", url), Attr("method", "POST"), AttrText);
    IdText("hackForm");
    MethodText("POST");
    FormParts(AttrText(url));
  }

  lemma IdText(s: string)
    requires s == "hackForm"
    ensures AttrText(s) == s
  {
    AttrTextPlain(s);
  }

  lemma MethodText(s: string)
    requires s == "POST"
    ensures AttrText(s) == s
  {
    AttrTextPlain(s);
  }

  lemma TypeText(s: string)
    requires s == "text"
    ensures AttrText(s) == s
  {
    AttrTextPlain(s);
  }

  // ---- the frame around the form ----

  // line by line, as the source lays them out
  const HEAD_TEXT := "\n        <!DOCTYPE html>" + "\n        <html>" + "\n        <body>" + "\n            "
  const FOOT_TEXT := ("\n            <script>" + "document.getElementById('hackForm').submit();</script>")
                     + "\n        </body>" + "\n        </html>"

  lemma WritePair(a: Piece, b: Piece, text: string -> string)
    ensures WriteAll([a, b], text) == Write(a, text) + Write(b, text)
  {
    assert [a, b][1..] == [b] && [b][1..] == [];
    assert WriteAll([b], text) == Write(b, text);
  }

  lemma WriteThen(s: string, name: string, text: string -> string)
    ensures WriteAll(Then(s, name), text) == s + "<" + name + ">"
  {
    WritePair(Words(s), Bare(name), text);
    WriteBare(name, text);
    assert s + ("<" + name + ">") == s + "<" + name + ">";
  }

  lemma Lines()
    ensures LINE + DOCTYPE == "\n        <!DOCTYPE html>"
    ensures LINE + "<" + "html" + ">" == "\n        <html>"
    ensures LINE + "<" + "body" + ">" == "\n        <body>"
    ensures LINE + "<" + "/body" + ">" == "\n        </body>"
    ensures LINE + "<" + "/html" + ">" == "\n        </html>"
    ensures INDENTED + "<" + "script" + ">" == "\n            <script>"
  {
  }

  lemma ScriptLine()
    ensures SCRIPT + "<" + "/script" + ">" == "document.getElementById('hackForm').submit();</script>"
  {
    Join(SCRIPT, "<", "/script");
    Join(SCRIPT, "</script", ">");
    assert "</script" + ">" == "</script>";
    assert "<" + "/script" == "</script";
  }

  lemma WriteFour(a: seq<Piece>, b: seq<Piece>, c: seq<Piece>, d: seq<Piece>, text: string -> string)
    ensures WriteAll(a + b + c + d, text) == WriteAll(a, text) + WriteAll(b, text) + WriteAll(c, text) + WriteAll(d, text)
  {
    WriteAllAppend(a + b + c, d, text);
    WriteAllAppend(a + b, c, text);
    WriteAllAppend(a, b, text);
  }

  lemma HeadIsItsPieces()
    ensures WriteAll(HEAD, AttrText) == HEAD_TEXT
  {
    WritePair(Words(LINE), Doctype, AttrText);
    WriteThen(LINE, "html", AttrText);
    WriteThen(LINE, "body", AttrText);
    assert [Words(INDENTED)][1..] == [];
    WriteFour([Words(LINE), Doctype], Then(LINE, "html"), Then(LINE, "body"), [Words(INDENTED)], AttrText);
    Lines();
  }

  lemma FootIsItsPieces()
    ensures WriteAll(FOOT, AttrText) == FOOT_TEXT
  {
    WriteThen(INDENTED, "script", AttrText);
    WriteThen(SCRIPT, "/script", AttrText);
    WriteThen(LINE, "/body", AttrText);
    WriteThen(LINE, "/html", AttrText);
    WriteFour(Then(INDENTED, "script"), Then(SCRIPT, "/script"), Then(LINE, "/body"), Then(LINE, "/html"), AttrText);
    Lines();
    ScriptLine();
  }

  // ---- the loop over the pairs ----

  lemma OneMoreInput(f: Field, rest: seq<Field>)
    ensures WriteAll(Inputs([f] + rest), AttrText) == InputText(f) + WriteAll(Inputs(rest), AttrText)
  {
    var own, after := [Element(InputTag(f)), Bare("br")], Inputs(rest);
    assert ([f] + rest)[1..] == rest;
    assert Inputs([f] + rest) == own + after;
    WriteAllAppend(own, after, AttrText);
    WritePair(own[0], own[1], AttrText);
    InputIsItsTags(f);
  }

  /** The inputs still to be written for `pairs`. */
  ghost function Remaining(pairs: seq<string>): string {
    WriteAll(Inputs(Kept(Decoded(pairs))), AttrText)
  }

  lemma OnePair(pairs: seq<string>)
    requires pairs != []
    ensures var f := FieldOf(pairs[0]);
            Remaining(pairs) == (if f.name == "submit" then "" else InputText(f)) + Remaining(pairs[1..])
  {
    var f, rest := FieldOf(pairs[0]), Decoded(pairs[1..]);
    assert Decoded(pairs)[1..] == rest;
    if f.name == "submit" {
      assert Kept(Decoded(pairs)) == [] + Kept(rest) == Kept(rest);
    } else {
      OneMoreInput(f, Kept(rest));
    }
  }

  lemma NextPair(form: string, whole: string, pairs: seq<string>, k: nat)
    requires k < |pairs| && form + Remaining(pairs[k..]) == whole
    ensures var f := FieldOf(pairs[k]);
            form + (if f.name == "submit" then "" else InputText(f)) + Remaining(pairs[k + 1..]) == whole
  {
    OnePair(pairs[k..]);
    assert pairs[k..][1..] == pairs[k + 1..];
    var f := FieldOf(pairs[k]);
    Join(form, if f.name == "submit" then "" else InputText(f), Remaining(pairs[k + 1..]));
  }

  method WriteForm(url: string, pairs: seq<string>) returns (form: string)
    ensures form == FormText(url) + Remaining(pairs) + "</form>"
  {
    form := FormText(url);
    ghost var whole := form + Remaining(pairs);
    assert pairs[0..] == pairs;
    for k := 0 to |pairs|
      invariant form + Remaining(pairs[k..]) == whole
    {
      NextPair(form, whole, pairs, k);
      assert form + "" == form;
      var pair := pairs[k];
      var cut := IndexOf(pair, '=');
      var name := Unquote(pair[..cut]);
      if name == "submit" {
        continue;
      }
      var value := if cut < |pair| then Unquote(pair[cut + 1..]) else "";
      form := form + InputText(Field(name, value));
    }
    assert pairs[|pairs|..] == [] && Remaining([]) == "" && form + "" == form;
    form := form + "</form>";
  }

  lemma WriteSingle(p: Piece, text: string -> string)
    ensures WriteAll([p], text) == Write(p, text)
  {
    assert [p][1..] == [];
  }

  lemma FormIsItsPieces(url: string, fields: seq<Field>)
    ensures WriteAll(FormPieces(url, fields), AttrText) == FormText(url) + WriteAll(Inputs(fields), AttrText) + "</form>"
  {
    FormIsItsTag(url);
    WriteSingle(Element(FormTag(url)), AttrText);
    EndIsItsTag();
    WriteMiddle([Element(FormTag(url))], Inputs(fields), [Bare("/form")], AttrText);
  }

  lemma EndIsItsTag()
    ensures WriteAll([Bare("/form")], AttrText) == "</form>"
  {
    WriteSingle(Bare("/form"), AttrText);
    WriteBare("/form", AttrText);
  }

  lemma WriteMiddle(a: seq<Piece>, b: seq<Piece>, c: seq<Piece>, text: string -> string)
    ensures WriteAll(a + b + c, text) == WriteAll(a, text) + WriteAll(b, text) + WriteAll(c, text)
  {
    WriteAllAppend(a + b, c, text);
    WriteAllAppend(a, b, text);
  }

  /**
    For every url and urlencoded body: nothing in the document can cut the data URL short
    or be decoded into something else, and decoding, reading and unescaping it gives
    a form that posts exactly the decoded fields to exactly the url. The script at its end
    submits the form by the id it carries.
   */
  method BuildPostHtml(url: string, postData: Option<string>) returns (document: string)
    ensures document == WriteAll(Pieces(url, FieldsOf(postData)), AttrText)
    ensures IsBytes(url) && IsBytes(OrEmpty(postData)) ==>
              Sealed(document) && FormIn(document) == Form(Some("hackForm"), Some(url), Some("POST"), FieldsOf(postData))
    ensures exists before :: document == before + ("\n            <script>" + "document.getElementById('hackForm').submit();</script>"
                                                   + "\n        </body>" + "\n        </html>")
  {
    var query := OrEmpty(postData);
    if query != "" && query[0] == '?' {
      query := query[1..];
    }
    var pairs := Split(query, '&');
    var form := WriteForm(url, pairs);
    document := HEAD_TEXT + form + FOOT_TEXT;
    assert document == (HEAD_TEXT + form) + FOOT_TEXT;

    ghost var fields := FieldsOf(postData);
    FormIsItsPieces(url, fields);
    HeadIsItsPieces();
    FootIsItsPieces();
    WriteAllAppend(HEAD + FormPieces(url, fields), FOOT, AttrText);
    WriteAllAppend(HEAD, FormPieces(url, fields), AttrText);
    if IsBytes(url) && IsBytes(OrEmpty(postData)) {
      PostRoundTrip(url, postData);
    }
  }
}
