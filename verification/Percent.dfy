/**
  Percent-encoding as urllib's quote and unquote do it, and HTML escaping as
  html.escape does it. Text is its UTF-8 bytes, each held in a char below 256.
  Percent-encoding is section 2.1 of RFC 3986, the unreserved characters section 2.3.
 */
module Percent {

  ghost predicate IsBytes(s: string) {
    forall i | 0 <= i < |s| :: s[i] as int < 256
  }

  predicate Unreserved(c: char) {
    'a' <= c <= 'z' || 'A' <= c <= 'Z' || '0' <= c <= '9' || c == '_' || c == '.' || c == '-' || c == '~'
  }

  predicate IsHex(c: char) {
    '0' <= c <= '9' || 'A' <= c <= 'F' || 'a' <= c <= 'f'
  }

  function HexValue(c: char): (v: nat)
    requires IsHex(c)
    ensures v < 16
  {
    if c <= '9' then (c - '0') as int else if c <= 'F' then (c - 'A') as int + 10 else (c - 'a') as int + 10
  }

  function HexDigit(v: nat): (c: char)
    requires v < 16
    ensures IsHex(c) && HexValue(c) == v && ('0' <= c <= '9' || 'A' <= c <= 'F')
  {
    if v < 10 then '0' + v as char else 'A' + (v - 10) as char
  }

  predicate Escapes(s: string) {
    |s| >= 3 && s[0] == '%' && IsHex(s[1]) && IsHex(s[2])
  }

  function QuoteChar(c: char, safe: string): string {
    if Unreserved(c) || c in safe || c as int >= 256 then [c]
    else ['%', HexDigit(c as int / 16), HexDigit(c as int % 16)]
  }

  function Quote(s: string, safe: string): string {
    if s == "" then "" else QuoteChar(s[0], safe) + Quote(s[1..], safe)
  }

  function Unquote(s: string): string {
    if s == "" then ""
    else if Escapes(s) then [(HexValue(s[1]) * 16 + HexValue(s[2])) as char] + Unquote(s[3..])
    else [s[0]] + Unquote(s[1..])
  }

  /** No `#`, and no `%` outside a valid escape: text a data URL carries whole. */
  predicate Sealed(s: string) {
    s == "" ||
    (if s[0] == '%' then Escapes(s) && Sealed(s[3..]) else s[0] != '#' && Sealed(s[1..]))
  }

  predicate SafeIsPlain(safe: string) {
    '%' !in safe && '#' !in safe
  }

  lemma {:induction false} UnquoteAppend(a: string, b: string)
    requires Sealed(a)
    ensures Unquote(a + b) == Unquote(a) + Unquote(b)
    ensures Sealed(b) ==> Sealed(a + b)
  {
    if a == "" {
      assert a + b == b;
    } else if a[0] == '%' {
      assert (a + b)[3..] == a[3..] + b && (a + b)[..3] == a[..3];
      assert (a + b)[1] == a[1] && (a + b)[2] == a[2];
      UnquoteAppend(a[3..], b);
    } else {
      assert (a + b)[1..] == a[1..] + b;
      UnquoteAppend(a[1..], b);
    }
  }

  lemma UnquoteOne(c: char)
    requires c != '%' && c != '#'
    ensures Sealed([c]) && Unquote([c]) == [c]
  {
    assert [c][1..] == "";
  }

  lemma UnquoteEscape(c: char)
    requires c as int < 256
    ensures var e := ['%', HexDigit(c as int / 16), HexDigit(c as int % 16)]; Sealed(e) && Unquote(e) == [c]
  {
    var e := ['%', HexDigit(c as int / 16), HexDigit(c as int % 16)];
    assert Escapes(e) && e[3..] == "";
    assert Unquote(e[3..]) == "";
  }

  /** What quote writes, the browser's decode undoes, in any surroundings. */
  lemma {:induction false} UnquoteQuote(s: string, safe: string)
    requires IsBytes(s) && SafeIsPlain(safe)
    ensures Sealed(Quote(s, safe)) && Unquote(Quote(s, safe)) == s
  {
    if s != "" {
      UnquoteQuote(s[1..], safe);
      UnquoteQuotedChar(s[0], safe);
      UnquoteAppend(QuoteChar(s[0], safe), Quote(s[1..], safe));
      assert s == [s[0]] + s[1..];
    }
  }

  lemma UnquoteQuotedChar(c: char, safe: string)
    requires c as int < 256 && SafeIsPlain(safe)
    ensures Sealed(QuoteChar(c, safe)) && Unquote(QuoteChar(c, safe)) == [c]
  {
    if Unreserved(c) || c in safe {
      UnquoteOne(c);
    } else {
      UnquoteEscape(c);
    }
  }

  lemma {:induction false} UnquoteIsBytes(s: string)
    requires IsBytes(s)
    ensures IsBytes(Unquote(s))
  {
    if s != "" {
      UnquoteIsBytes(if Escapes(s) then s[3..] else s[1..]);
    }
  }

  lemma {:induction false} PlainIsSealed(s: string)
    requires '%' !in s && '#' !in s
    ensures Sealed(s) && Unquote(s) == s
  {
    if s != "" {
      PlainIsSealed(s[1..]);
    }
  }

  lemma {:induction false} QuoteUnreserved(s: string, safe: string)
    requires forall i | 0 <= i < |s| :: Unreserved(s[i])
    ensures Quote(s, safe) == s
  {
    if s != "" {
      QuoteUnreserved(s[1..], safe);
    }
  }

  // ---- both codings, byte by byte ----

  /** A hexadecimal digit of either case, and what it stands for. */
  predicate Stands(c: char, v: nat) {
    (v < 10 && c as int == '0' as int + v)
    || (10 <= v < 16 && (c as int == 'A' as int + (v - 10) || c as int == 'a' as int + (v - 10)))
  }

  /** Letters, digits, `_.-~` and what is marked safe are written as they are; any other byte as two upper-case digits. */
  lemma QuotedAs(c: char, safe: string)
    requires c as int < 256
    ensures (('a' <= c <= 'z') || ('A' <= c <= 'Z') || ('0' <= c <= '9') || c == '_' || c == '.' || c == '-' || c == '~' || c in safe)
              <==> Quote([c], safe) == [c]
    ensures Quote([c], safe) != [c] ==>
              exists h, l :: Quote([c], safe) == ['%', h, l] && Stands(h, c as int / 16) && Stands(l, c as int % 16)
                             && !('a' <= h <= 'f') && !('a' <= l <= 'f')
  {
    assert [c][1..] == "" && Quote([c], safe) == QuoteChar(c, safe) + Quote("", safe) == QuoteChar(c, safe);
    var h, l := HexDigit(c as int / 16), HexDigit(c as int % 16);
    assert Stands(h, c as int / 16) && Stands(l, c as int % 16);
    assert |QuoteChar(c, safe)| == 3 ==> QuoteChar(c, safe) == ['%', h, l];
  }

  /** An escape of either case is decoded, and a percent sign that starts none is kept, like everything else. */
  lemma EscapeIsDecoded(h: char, l: char, hi: nat, lo: nat, rest: string)
    requires Stands(h, hi) && Stands(l, lo)
    ensures Unquote(['%', h, l] + rest) == [(16 * hi + lo) as char] + Unquote(rest)
  {
    var s := ['%', h, l] + rest;
    assert s[0] == '%' && s[1] == h && s[2] == l && s[3..] == rest;
    assert HexValue(h) == hi && HexValue(l) == lo;
  }

  lemma OthersAreKept(c: char, rest: string)
    requires c == '%' ==> |rest| < 2 || !IsHex(rest[0]) || !IsHex(rest[1])
    ensures Unquote([c] + rest) == [c] + Unquote(rest)
  {
    var s := [c] + rest;
    assert s[1..] == rest && s[0] == c;
    assert |rest| >= 2 ==> s[1] == rest[0] && s[2] == rest[1];
  }

  lemma HexIs(c: char)
    ensures IsHex(c) <==> exists v: nat :: v < 16 && Stands(c, v)
  {
    if IsHex(c) { assert Stands(c, HexValue(c)); }
  }

  // ---- HTML escaping ----

  function EscapeChar(c: char): string {
    match c
    case '&' => "&amp;"
    case '<' => "&lt;"
    case '>' => "&gt;"
    case '"' => "&quot;"
    case '\'' => "&#x27;"
    case _ => [c]
  }

  function Escape(s: string): string {
    if s == "" then "" else EscapeChar(s[0]) + Escape(s[1..])
  }

  datatype Read = Read(c: char, length: nat)

  /** A parser reading the five entities escape emits: the character at the front, and what it takes up. */
  function ReadChar(s: string): (r: Read)
    requires s != ""
    ensures 0 < r.length <= |s|
  {
    if s[0] != '&' then Read(s[0], 1)
    else if |s| >= 5 && s[1] == 'a' && s[2] == 'm' && s[3] == 'p' && s[4] == ';' then Read('&', 5)
    else if |s| >= 4 && s[1] == 'l' && s[2] == 't' && s[3] == ';' then Read('<', 4)
    else if |s| >= 4 && s[1] == 'g' && s[2] == 't' && s[3] == ';' then Read('>', 4)
    else if |s| >= 6 && s[1] == 'q' && s[2] == 'u' && s[3] == 'o' && s[4] == 't' && s[5] == ';' then Read('"', 6)
    else if |s| >= 6 && s[1] == '#' && s[2] == 'x' && s[3] == '2' && s[4] == '7' && s[5] == ';' then Read('\'', 6)
    else Read('&', 1)
  }

  function Unescape(s: string): string {
    if s == "" then "" else [ReadChar(s).c] + Unescape(s[ReadChar(s).length..])
  }

  lemma ReadEscaped(c: char, rest: string)
    ensures ReadChar(EscapeChar(c) + rest) == Read(c, |EscapeChar(c)|)
  {
    var e := EscapeChar(c);
    var t := e + rest;
    assert t[0] == e[0];
    if |e| > 1 { assert t[1] == e[1] && t[2] == e[2] && t[3] == e[3]; }
    if |e| > 4 { assert t[4] == e[4]; }
    if |e| > 5 { assert t[5] == e[5]; }
  }

  lemma {:induction false} UnescapeEscape(s: string)
    ensures Unescape(Escape(s)) == s
  {
    if s != "" {
      var e, rest := EscapeChar(s[0]), Escape(s[1..]);
      UnescapeEscape(s[1..]);
      ReadEscaped(s[0], rest);
      assert (e + rest)[|e|..] == rest;
    }
  }

  lemma EscapedChar(c: char)
    ensures '"' !in EscapeChar(c) && '<' !in EscapeChar(c) && '>' !in EscapeChar(c) && '\'' !in EscapeChar(c)
    ensures c as int < 256 ==> IsBytes(EscapeChar(c))
  {
  }

  /** Nothing escape writes can open or close a tag, or close a quoted attribute. */
  lemma {:induction false} EscapedIsInert(s: string)
    ensures '"' !in Escape(s) && '<' !in Escape(s) && '>' !in Escape(s) && '\'' !in Escape(s)
    ensures IsBytes(s) ==> IsBytes(Escape(s))
  {
    if s != "" {
      EscapedChar(s[0]);
      EscapedIsInert(s[1..]);
    }
  }

  lemma {:induction false} EscapeUnreserved(s: string)
    requires forall i | 0 <= i < |s| :: Unreserved(s[i])
    ensures Escape(s) == s
  {
    if s != "" {
      EscapeUnreserved(s[1..]);
    }
  }
}
