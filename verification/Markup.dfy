/** As much of an HTML parser as the POST form needs: tags, and attributes in double quotes. */
module Markup {
  import opened Percent

  datatype Attr = Attr(key: string, value: string)
  datatype Tag = Tag(name: string, attrs: seq<Attr>)

  datatype Mode = Text | Name | Gap | Key | Equals | Value

  datatype Scan = Scan(mode: Mode, name: string, key: string, value: string, attrs: seq<Attr>, tags: seq<Tag>)

  /** Between tags. */
  function Between(tags: seq<Tag>): Scan {
    Scan(Text, "", "", "", [], tags)
  }

  function Step(st: Scan, c: char): Scan {
    match st.mode
    case Text => if c == '<' then st.(mode := Name) else st
    case Name =>
      if c == '>' then Between(st.tags + [Tag(st.name, st.attrs)])
      else if c == ' ' then st.(mode := Gap)
      else st.(name := st.name + [c])
    case Gap =>
      if c == '>' then Between(st.tags + [Tag(st.name, st.attrs)])
      else if c == ' ' then st
      else st.(mode := Key, key := [c])
    case Key =>
      if c == '>' then Between(st.tags + [Tag(st.name, st.attrs + [Attr(st.key, "")])])
      else if c == ' ' then st.(mode := Gap, key := "", attrs := st.attrs + [Attr(st.key, "")])
      else if c == '=' then st.(mode := Equals)
      else st.(key := st.key + [c])
    case Equals => if c == '"' then st.(mode := Value) else st.(mode := Gap, key := "")
    case Value =>
      if c == '"' then st.(mode := Gap, key := "", value := "", attrs := st.attrs + [Attr(st.key, Unescape(st.value))])
      else st.(value := st.value + [c])
  }

  function Run(st: Scan, s: string): Scan
    decreases |s|
  {
    if s == "" then st else Run(Step(st, s[0]), s[1..])
  }

  function Tags(document: string): seq<Tag> {
    Run(Between([]), document).tags
  }

  lemma {:induction false} RunAppend(st: Scan, a: string, b: string)
    ensures Run(st, a + b) == Run(Run(st, a), b)
    decreases |a|
  {
    if a == "" {
      assert a + b == b;
    } else {
      assert (a + b)[1..] == a[1..] + b;
      RunAppend(Step(st, a[0]), a[1..], b);
    }
  }

  predicate Word(s: string) {
    forall i | 0 <= i < |s| :: s[i] != ' ' && s[i] != '<' && s[i] != '>' && s[i] != '=' && s[i] != '"'
  }

  lemma {:induction false} RunText(tags: seq<Tag>, s: string)
    requires '<' !in s
    ensures Run(Between(tags), s) == Between(tags)
    decreases |s|
  {
    if s != "" { RunText(tags, s[1..]); }
  }

  lemma {:induction false} RunName(st: Scan, s: string)
    requires st.mode == Name && Word(s)
    ensures Run(st, s) == st.(name := st.name + s)
    decreases |s|
  {
    if s != "" {
      RunName(Step(st, s[0]), s[1..]);
      assert st.name + s == st.name + [s[0]] + s[1..];
    } else {
      assert st.name + s == st.name;
    }
  }

  lemma {:induction false} RunKey(st: Scan, s: string)
    requires st.mode == Key && Word(s)
    ensures Run(st, s) == st.(key := st.key + s)
    decreases |s|
  {
    if s != "" {
      RunKey(Step(st, s[0]), s[1..]);
      assert st.key + s == st.key + [s[0]] + s[1..];
    } else {
      assert st.key + s == st.key;
    }
  }

  lemma {:induction false} RunValue(st: Scan, s: string)
    requires st.mode == Value && '"' !in s
    ensures Run(st, s) == st.(value := st.value + s)
    decreases |s|
  {
    if s != "" {
      RunValue(Step(st, s[0]), s[1..]);
      assert st.value + s == st.value + [s[0]] + s[1..];
    } else {
      assert st.value + s == st.value;
    }
  }

  // ---- writing tags, and reading them back ----

  /** The first `n` attributes, written with `text` for their values. */
  function WriteAttrs(attrs: seq<Attr>, n: nat, text: string -> string): string
    requires n <= |attrs|
  {
    if n == 0 then "" else WriteAttrs(attrs, n - 1, text) + WriteAttr(attrs[n - 1], text)
  }

  function WriteAttr(a: Attr, text: string -> string): string {
    " " + a.key + "=\"" + text(a.value) + "\""
  }

  function WriteTag(t: Tag, text: string -> string): string {
    "<" + t.name + WriteAttrs(t.attrs, |t.attrs|, text) + ">"
  }

  predicate Plain(t: Tag) {
    Word(t.name) && Keyed(t.attrs)
  }

  /** Inside a tag, after its name or after an attribute. */
  predicate InTag(st: Scan, name: string, attrs: seq<Attr>, tags: seq<Tag>) {
    (st.mode == Name || st.mode == Gap) && st == Scan(st.mode, name, "", "", attrs, tags)
  }

  lemma RunNewKey(st: Scan, key: string)
    requires st.mode == Gap && Word(key) && key != ""
    ensures Run(st, key) == st.(mode := Key, key := key)
  {
    RunKey(Step(st, key[0]), key[1..]);
    assert [key[0]] + key[1..] == key;
  }

  lemma RunOpenQuote(st: Scan)
    requires st.mode == Key
    ensures Run(st, "=\"") == st.(mode := Value)
  {
    RunAppend(st, "=", "\"");
    assert "=" + "\"" == "=\"";
    RunOne(st, '=');
    RunOne(Step(st, '='), '"');
  }

  lemma ReadAttr(st: Scan, name: string, attrs: seq<Attr>, tags: seq<Tag>, a: Attr)
    requires InTag(st, name, attrs, tags) && Word(a.key) && a.key != ""
    ensures InTag(Run(st, WriteAttr(a, Escape)), name, attrs + [a], tags)
  {
    var raw := Escape(a.value);
    EscapedIsInert(a.value);
    UnescapeEscape(a.value);
    var open := " " + a.key;
    var upToValue := open + "=\"";
    RunAppend(st, upToValue + raw, "\"");
    RunAppend(st, upToValue, raw);
    RunAppend(st, open, "=\"");
    RunAppend(st, " ", a.key);
    RunOne(st, ' ');
    RunNewKey(Step(st, ' '), a.key);
    RunOpenQuote(Run(st, open));
    RunValue(Run(st, upToValue), raw);
    assert "" + raw == raw;
    RunOne(Run(st, upToValue + raw), '"');
  }

  lemma RunOne(st: Scan, c: char)
    ensures Run(st, [c]) == Step(st, c)
  {
    assert [c][1..] == "";
    assert Run(Step(st, c), "") == Step(st, c);
  }

  predicate Keyed(attrs: seq<Attr>) {
    forall i | 0 <= i < |attrs| :: Word(attrs[i].key) && attrs[i].key != ""
  }

  lemma {:induction false} ReadAttrs(st: Scan, name: string, tags: seq<Tag>, attrs: seq<Attr>, n: nat)
    requires InTag(st, name, [], tags) && n <= |attrs| && Keyed(attrs)
    ensures InTag(Run(st, WriteAttrs(attrs, n, Escape)), name, attrs[..n], tags)
  {
    if n > 0 {
      ReadAttrs(st, name, tags, attrs, n - 1);
      ReadOneMore(st, WriteAttrs(attrs, n - 1, Escape), name, attrs[..n - 1], tags, attrs[n - 1]);
      OneMore(attrs, n);
    } else {
      ReadNone(st);
      assert attrs[..0] == [];
    }
  }

  lemma ReadNone(st: Scan)
    ensures Run(st, "") == st
  {
  }

  lemma ReadOneMore(st: Scan, init: string, name: string, attrs: seq<Attr>, tags: seq<Tag>, a: Attr)
    requires InTag(Run(st, init), name, attrs, tags) && Word(a.key) && a.key != ""
    ensures InTag(Run(st, init + WriteAttr(a, Escape)), name, attrs + [a], tags)
  {
    ReadAttr(Run(st, init), name, attrs, tags, a);
    RunAppend(st, init, WriteAttr(a, Escape));
  }

  lemma OneMore(attrs: seq<Attr>, n: nat)
    requires 0 < n <= |attrs|
    ensures attrs[..n] == attrs[..n - 1] + [attrs[n - 1]]
  {
  }

  /** A written tag is read back whole, whatever its attribute values are. */
  lemma ReadTag(tags: seq<Tag>, t: Tag)
    requires Plain(t)
    ensures Run(Between(tags), WriteTag(t, Escape)) == Between(tags + [t])
  {
    var start, attrs := Between(tags), WriteAttrs(t.attrs, |t.attrs|, Escape);
    var open := "<" + t.name;
    RunAppend(start, open + attrs, ">");
    RunAppend(start, open, attrs);
    RunAppend(start, "<", t.name);
    RunOne(start, '<');
    RunName(Step(start, '<'), t.name);
    assert "" + t.name == t.name;
    ReadAttrs(Run(start, open), t.name, tags, t.attrs, |t.attrs|);
    assert t.attrs[..|t.attrs|] == t.attrs;
    RunOne(Run(start, open + attrs), '>');
  }

  const DOCTYPE := "<!DOCTYPE html>"
  const DOCTYPE_TAG := Tag("!DOCTYPE", [Attr("html", "")])

  lemma ReadValueless(tags: seq<Tag>, name: string, key: string)
    requires Word(name) && Word(key) && key != ""
    ensures Run(Between(tags), "<" + name + " " + key + ">") == Between(tags + [Tag(name, [Attr(key, "")])])
  {
    var start := Between(tags);
    var named := "<" + name;
    var spaced := named + " ";
    RunAppend(start, spaced + key, ">");
    RunAppend(start, spaced, key);
    RunAppend(start, named, " ");
    RunAppend(start, "<", name);
    RunOne(start, '<');
    RunName(Step(start, '<'), name);
    assert "" + name == name;
    RunOne(Run(start, named), ' ');
    RunNewKey(Run(start, spaced), key);
    RunOne(Run(start, spaced + key), '>');
    assert [] + [Attr(key, "")] == [Attr(key, "")];
  }

  lemma ReadDoctype(tags: seq<Tag>)
    ensures Run(Between(tags), DOCTYPE) == Between(tags + [DOCTYPE_TAG])
  {
    assert DOCTYPE == "<" + "!DOCTYPE" + " " + "html" + ">";
    ReadValueless(tags, "!DOCTYPE", "html");
  }

  /** Reading two stretches of a document one after the other. */
  lemma ReadBoth(tags: seq<Tag>, a: string, b: string, more: seq<Tag>, last: seq<Tag>)
    requires Run(Between(tags), a) == Between(tags + more)
    requires Run(Between(tags + more), b) == Between(tags + more + last)
    ensures Run(Between(tags), a + b) == Between(tags + (more + last))
  {
    RunAppend(Between(tags), a, b);
    assert tags + more + last == tags + (more + last);
  }
}
