/** A urlencoded body, written the way clients write one: what it decodes to is what was put in. */
module FormBody {
  import opened Basics
  import opened Text
  import opened Percent
  import opened PostForm

  function EncodeField(f: Field): string {
    Quote(f.name, "") + "=" + Quote(f.value, "")
  }

  function Encode(fields: seq<Field>): string
    requires fields != []
  {
    if |fields| == 1 then EncodeField(fields[0]) else EncodeField(fields[0]) + "&" + Encode(fields[1..])
  }

  lemma {:induction false} QuoteKeepsOut(s: string, c: char)
    requires IsBytes(s) && !Unreserved(c) && c != '%'
    ensures c !in Quote(s, "")
  {
    if s != "" {
      var d := QuoteChar(s[0], "");
      assert |d| == 3 ==> c != d[0] && c != d[1] && c != d[2];
      assert |d| == 1 ==> d[0] == s[0];
      QuoteKeepsOut(s[1..], c);
    }
  }

  lemma FieldOfEncoded(f: Field)
    requires IsBytes(f.name) && IsBytes(f.value)
    ensures FieldOf(EncodeField(f)) == f && '&' !in EncodeField(f)
    ensures EncodeField(f) != "" && EncodeField(f)[0] != '?'
  {
    var name, value := Quote(f.name, ""), Quote(f.value, "");
    QuoteKeepsOut(f.name, '=');
    QuoteKeepsOut(f.name, '&');
    QuoteKeepsOut(f.value, '&');
    QuoteKeepsOut(f.name, '?');
    IndexOfFirst(name, '=', value);
    UnquoteQuote(f.name, "");
    UnquoteQuote(f.value, "");
    assert EncodeField(f)[..|name|] == name;
    assert EncodeField(f)[|name| + 1..] == value;
  }

  lemma DecodeFirst(a: string, b: string)
    requires '&' !in a
    ensures Decoded(Split(a, '&')) == [FieldOf(a)]
    ensures Decoded(Split(a + "&" + b, '&')) == [FieldOf(a)] + Decoded(Split(b, '&'))
  {
    SplitFirst(a, '&', b);
    assert [a][1..] == [];
    assert ([a] + Split(b, '&'))[1..] == Split(b, '&');
  }

  lemma {:induction false} DecodeEncoded(fields: seq<Field>)
    requires fields != [] && FieldsAreBytes(fields)
    ensures Decoded(Split(Encode(fields), '&')) == fields
  {
    assert IsBytes(fields[0].name) && IsBytes(fields[0].value);
    FieldOfEncoded(fields[0]);
    if |fields| == 1 {
      DecodeFirst(EncodeField(fields[0]), "");
    } else {
      DecodeFirst(EncodeField(fields[0]), Encode(fields[1..]));
      DecodeEncoded(fields[1..]);
    }
  }

  /** Every field a client encoded comes back as it was, in order, but for those named submit; a leading ? is dropped. */
  lemma EncodedFieldsComeBack(fields: seq<Field>)
    requires fields != [] && FieldsAreBytes(fields)
    ensures FieldsOf(Some(Encode(fields))) == Kept(fields)
    ensures FieldsOf(Some("?" + Encode(fields))) == Kept(fields)
  {
    assert IsBytes(fields[0].name) && IsBytes(fields[0].value);
    FieldOfEncoded(fields[0]);
    DecodeEncoded(fields);
    assert Encode(fields)[0] == EncodeField(fields[0])[0];
    assert ("?" + Encode(fields))[1..] == Encode(fields);
  }

  /** A pair is cut at its first equals sign and both halves decoded, a plus sign staying a plus sign; without one the value is empty. */
  lemma PairIsDecoded(name: string, value: string)
    requires '=' !in name
    ensures FieldOf(name + "=" + value) == Field(Unquote(name), Unquote(value)) && FieldOf(name) == Field(Unquote(name), "")
  {
    IndexOfFirst(name, '=', value);
    var pair := name + "=" + value;
    assert pair[..|name|] == name && pair[|name| + 1..] == value && name[..|name|] == name;
  }

  /** Pairs are taken one after the other, and only one leading question mark is dropped. */
  lemma FirstPairFirst(pair: string, rest: string)
    requires '&' !in pair && (pair == "" || pair[0] != '?')
    ensures var own := if FieldOf(pair).name == "submit" then [] else [FieldOf(pair)];
            var others := Kept(Decoded(Split(rest, '&')));
            && FieldsOf(Some(pair + "&" + rest)) == own + others && FieldsOf(Some("?" + (pair + "&" + rest))) == own + others
            && FieldsOf(Some(pair)) == own
  {
    var s := pair + "&" + rest;
    DecodeFirst(pair, rest);
    assert pair != "" ==> s[0] == pair[0];
    assert ("?" + s)[1..] == s;
    KeptIsTheRest([FieldOf(pair)], Decoded(Split(rest, '&')));
    KeptIsTheRest([FieldOf(pair)], []);
    assert [FieldOf(pair)][1..] == [];
  }

  /** Kept drops the fields named submit and nothing else, keeping order. */
  lemma {:induction false} KeptIsTheRest(fields: seq<Field>, more: seq<Field>)
    ensures Kept(fields + more) == Kept(fields) + Kept(more)
    ensures forall f :: f in Kept(fields) <==> f in fields && f.name != "submit"
  {
    if fields == [] {
      assert fields + more == more;
    } else {
      assert (fields + more)[1..] == fields[1..] + more;
      KeptIsTheRest(fields[1..], more);
    }
  }

  /** No body at all still posts one nameless field, as splitting an empty string leaves one empty pair. */
  lemma EmptyBodyPostsOneField()
    ensures FieldsOf(None) == [Field("", "")] && FieldsOf(Some("")) == [Field("", "")]
  {
    assert Split("", '&') == [""];
    assert FieldOf("") == Field("", "");
    assert [""][1..] == [];
    assert [Field("", "")][1..] == [];
  }

  // ---- what a text input then keeps of a value ----

  /** A single-line text input drops the line breaks of the value its attribute gives it. */
  function Entered(value: string): string {
    if value == "" then "" else (if IsBreak(value[0]) then "" else [value[0]]) + Entered(value[1..])
  }

  predicate IsBreak(c: char) { c == '\n' || c == '\r' }

  function AllEntered(fields: seq<Field>): seq<Field> {
    if fields == [] then [] else [Field(fields[0].name, Entered(fields[0].value))] + AllEntered(fields[1..])
  }

  lemma {:induction false} EnteredIff(value: string)
    ensures |Entered(value)| <= |value|
    ensures |Entered(value)| == |value| <==> forall i | 0 <= i < |value| :: !IsBreak(value[i])
    ensures |Entered(value)| == |value| ==> Entered(value) == value
  {
    if value != "" {
      EnteredIff(value[1..]);
      assert value == [value[0]] + value[1..];
    }
  }

  /** The fields a document carries are the ones its inputs hold exactly when no value has a line break. */
  lemma {:induction false} ValuesAreEnteredIff(fields: seq<Field>)
    ensures AllEntered(fields) == fields <==> forall i, j | 0 <= i < |fields| && 0 <= j < |fields[i].value| :: !IsBreak(fields[i].value[j])
  {
    if fields != [] {
      EnteredIff(fields[0].value);
      ValuesAreEnteredIff(fields[1..]);
      assert AllEntered(fields)[0].value == Entered(fields[0].value) && AllEntered(fields)[1..] == AllEntered(fields[1..]);
      assert fields == [fields[0]] + fields[1..];
      assert forall i | 1 <= i < |fields| :: fields[i] == fields[1..][i - 1];
    }
  }
}
