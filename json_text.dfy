/** `JSON.stringify` applied to a flat object whose property values are all
    strings, with string escaping as section 7 of RFC 8259 and ECMA-262's
    QuoteJSONString define it, together with a parser for the same compact
    form that serves as its inverse. */
module JsonText {
  import opened Optional

  /** One own property of the object: a key and its string value. */
  datatype Entry = Entry(key: string, value: string)

  /** Value of a hexadecimal digit (either case), if `c` is one. */
  function HexValue(c: char): (r: Option<nat>)
    ensures r.Some? ==> r.value < 16
  {
    if '0' <= c <= '9' then Some(c as int - '0' as int)
    else if 'a' <= c <= 'f' then Some(c as int - 'a' as int + 10)
    else if 'A' <= c <= 'F' then Some(c as int - 'A' as int + 10)
    else None
  }

  /** Lower-case hexadecimal digit, as QuoteJSONString writes it. */
  function HexDigit(d: nat): (h: char)
    requires d < 16
    ensures HexValue(h) == Some(d)
  {
    if d < 10 then ('0' as int + d) as char else ('a' as int + d - 10) as char
  }

  /** The JSON text of one character inside a string literal: the two-character
      escapes for quote, backslash, backspace, form feed, line feed, carriage
      return and tab; `\u00XX` for every other control character below U+0020;
      the character itself otherwise. */
  function EscapeChar(c: char): (e: string)
    ensures |e| >= 1
    ensures e[0] == '\\' <==> c == '"' || c == '\\' || c as int < 0x20
    ensures e[0] != '\\' ==> e == [c]
    ensures forall i :: 0 <= i < |e| ==> e[i] as int >= 0x20
  {
    if c == '"' then "\\\""
    else if c == '\\' then "\\\\"
    else if c as int == 0x08 then "\\b"
    else if c as int == 0x0C then "\\f"
    else if c == '\n' then "\\n"
    else if c == '\r' then "\\r"
    else if c == '\t' then "\\t"
    else if c as int < 0x20 then "\\u00" + [HexDigit(c as int / 16), HexDigit(c as int % 16)]
    else [c]
  }

  function Escape(s: string): string
  {
    if |s| == 0 then "" else EscapeChar(s[0]) + Escape(s[1..])
  }

  /** QuoteJSONString: the string literal for `s`. */
  function Quote(s: string): (q: string)
    ensures |q| >= 2 && q[0] == '"' && q[|q| - 1] == '"'
    ensures Plain(s) ==> q == "\"" + s + "\""
  {
    if Plain(s) then EscapePlain(s); "\"" + Escape(s) + "\""
    else "\"" + Escape(s) + "\""
  }

  function Member(e: Entry): (m: string)
    ensures |m| >= 5
  {
    Quote(e.key) + ":" + Quote(e.value)
  }

  function Members(entries: seq<Entry>): (s: string)
    ensures |s| == 0 <==> |entries| == 0
  {
    if |entries| == 0 then ""
    else if |entries| == 1 then Member(entries[0])
    else Member(entries[0]) + "," + Members(entries[1..])
  }

  /** `JSON.stringify` of a flat string-valued object whose own properties, in
      order, are `entries`: no whitespace, members separated by commas. */
  function Stringify(entries: seq<Entry>): (json: string)
    ensures |json| >= 2 && json[0] == '{' && json[|json| - 1] == '}'
    ensures json == "{}" <==> entries == []
  {
    "{" + Members(entries) + "}"
  }

  // ---------------------------------------------------------------------
  // Parsing the compact form back (RFC 8259, section 7 string grammar).
  // ---------------------------------------------------------------------

  /** Whether `n` is a Unicode scalar value, so that it names a character. */
  predicate IsScalar(n: nat)
  {
    n < 0xD800 || 0xE000 <= n < 0x11_0000
  }

  /** The four hexadecimal digits of a `\uXXXX` escape. */
  function Hex4(s: string): (r: Option<nat>)
    requires |s| == 4
    ensures r.Some? ==> r.value < 0x1_0000
  {
    match (HexValue(s[0]), HexValue(s[1]), HexValue(s[2]), HexValue(s[3]))
    case (Some(a), Some(b), Some(c), Some(d)) => Some(((a * 16 + b) * 16 + c) * 16 + d)
    case _ => None
  }

  /** The character a two-character escape `\x` stands for. */
  function SimpleUnescape(x: char): Option<char>
  {
    if x == '"' then Some('"')
    else if x == '\\' then Some('\\')
    else if x == '/' then Some('/')
    else if x == 'b' then Some(0x08 as char)
    else if x == 'f' then Some(0x0C as char)
    else if x == 'n' then Some('\n')
    else if x == 'r' then Some('\r')
    else if x == 't' then Some('\t')
    else None
  }

  function Prepend(c: char, r: Option<(string, string)>): (p: Option<(string, string)>)
    ensures p.Some? <==> r.Some?
    ensures p.Some? ==> p.value == ([c] + r.value.0, r.value.1)
  {
    match r
    case None => None
    case Some((t, rest)) => Some(([c] + t, rest))
  }

  /** Reads the characters of a string literal after its opening quote, up to
      and including the closing quote; gives the decoded text and what follows. */
  function ParseChars(s: string): (r: Option<(string, string)>)
    ensures r.Some? ==> |r.value.1| < |s|
    decreases |s|
  {
    if |s| == 0 then None
    else if s[0] == '"' then Some(("", s[1..]))
    else if s[0] == '\\' then
      if |s| < 2 then None
      else if s[1] == 'u' then
        if |s| < 6 then None
        else match Hex4(s[2..6])
          case None => None
          case Some(n) => if IsScalar(n) then Prepend(n as char, ParseChars(s[6..])) else None
      else match SimpleUnescape(s[1])
        case None => None
        case Some(c) => Prepend(c, ParseChars(s[2..]))
    else if s[0] as int < 0x20 then None
    else Prepend(s[0], ParseChars(s[1..]))
  }

  /** A string literal at the front of `s`: its text and the rest of `s`. */
  function ParseString(s: string): (r: Option<(string, string)>)
    ensures r.Some? ==> |r.value.1| < |s|
  {
    if |s| == 0 || s[0] != '"' then None else ParseChars(s[1..])
  }

  /** A member `"key":"value"` at the front of `s`. */
  function ParseMember(s: string): (r: Option<(Entry, string)>)
    ensures r.Some? ==> |r.value.1| < |s|
  {
    match ParseString(s)
    case None => None
    case Some((k, afterKey)) =>
      if |afterKey| == 0 || afterKey[0] != ':' then None
      else match ParseString(afterKey[1..])
        case None => None
        case Some((v, rest)) => Some((Entry(k, v), rest))
  }

  /** One or more members separated by commas, then `}` and the end of input. */
  function ParseMembers(s: string): Option<seq<Entry>>
    decreases |s|
  {
    match ParseMember(s)
    case None => None
    case Some((e, rest)) =>
      if rest == "}" then Some([e])
      else if |rest| == 0 || rest[0] != ',' then None
      else match ParseMembers(rest[1..])
        case None => None
        case Some(es) => Some([e] + es)
  }

  /** A flat object of string members in the compact form `Stringify` emits. */
  function ParseObject(s: string): Option<seq<Entry>>
  {
    if |s| < 2 || s[0] != '{' then None
    else if s[1..] == "}" then Some([])
    else ParseMembers(s[1..])
  }

  // ---------------------------------------------------------------------
  // Round trip: the parser reads back exactly what Stringify wrote.
  // ---------------------------------------------------------------------

  lemma EscapeCharRoundTrip(c: char, t: string)
    ensures ParseChars(EscapeChar(c) + t) == Prepend(c, ParseChars(t))
  {
    var s := EscapeChar(c) + t;
    if c == '"' || c == '\\' || c as int == 0x08 || c as int == 0x0C || c == '\n' || c == '\r' || c == '\t' {
      assert s[2..] == t;
    } else if c as int < 0x20 {
      UnicodeEscapeRoundTrip(c, t);
    } else {
      assert s[1..] == t;
    }
  }

  /** A control character without a two-character escape is written as
      `\u00XX` and read back through `Hex4`. */
  lemma UnicodeEscapeRoundTrip(c: char, t: string)
    requires c as int < 0x20
    requires c as int != 0x08 && c as int != 0x0C && c != '\n' && c != '\r' && c != '\t'
    ensures ParseChars(EscapeChar(c) + t) == Prepend(c, ParseChars(t))
  {
    var s := EscapeChar(c) + t;
    var hi, lo := c as int / 16, c as int % 16;
    assert s[2..6] == ['0', '0', HexDigit(hi), HexDigit(lo)];
    assert Hex4(s[2..6]) == Some(c as int);
    assert s[6..] == t;
  }

  lemma {:induction false} EscapeRoundTrip(s: string, rest: string)
    ensures ParseChars(Escape(s) + "\"" + rest) == Some((s, rest))
  {
    if |s| == 0 {
      assert Escape(s) + "\"" + rest == "\"" + rest;
      assert ("\"" + rest)[1..] == rest;
    } else {
      EscapeRoundTrip(s[1..], rest);
      EscapeCharRoundTrip(s[0], Escape(s[1..]) + "\"" + rest);
      assert Escape(s) + "\"" + rest == EscapeChar(s[0]) + (Escape(s[1..]) + "\"" + rest);
      assert [s[0]] + s[1..] == s;
    }
  }

  /** Text with no quote, no backslash and no control character: the
      characters that need no escape. */
  predicate Plain(s: string)
  {
    forall i :: 0 <= i < |s| ==> s[i] != '"' && s[i] != '\\' && s[i] as int >= 0x20
  }

  /** Plain text is written as it is. */
  lemma {:induction false} EscapePlain(s: string)
    requires Plain(s)
    ensures Escape(s) == s
  {
    if |s| > 0 {
      EscapePlain(s[1..]);
      assert [s[0]] + s[1..] == s;
    }
  }

  /** An object with one plain-text property is written `{"key":"value"}`. */
  lemma StringifyPlainSingle(key: string, value: string)
    requires Plain(key) && Plain(value)
    ensures Stringify([Entry(key, value)]) == "{\"" + key + "\":\"" + value + "\"}"
  {
    var quotedKey, quotedValue := "\"" + key + "\"", "\"" + value + "\"";
    EscapePlain(key);
    EscapePlain(value);
    assert Members([Entry(key, value)]) == quotedKey + ":" + quotedValue;
    assert "{" + (quotedKey + ":" + quotedValue) + "}" == "{\"" + key + "\":\"" + value + "\"}";
  }

  /** Every string literal `Quote` writes is well formed and decodes to the
      text it was made from. */
  lemma QuoteRoundTrip(s: string, rest: string)
    ensures ParseString(Quote(s) + rest) == Some((s, rest))
  {
    EscapeRoundTrip(s, rest);
    assert (Quote(s) + rest)[1..] == Escape(s) + "\"" + rest;
  }

  lemma MemberRoundTrip(e: Entry, rest: string)
    ensures ParseMember(Member(e) + rest) == Some((e, rest))
  {
    var valueAndRest := Quote(e.value) + rest;
    var afterKey := [':'] + valueAndRest;
    assert Member(e) + rest == Quote(e.key) + afterKey;
    QuoteRoundTrip(e.key, afterKey);
    QuoteRoundTrip(e.value, rest);
    assert afterKey[1..] == valueAndRest;
  }

  lemma ParseMembersNext(s: string, e: Entry, rest: string, es: seq<Entry>)
    requires ParseMember(s) == Some((e, rest))
    requires |rest| > 0 && rest[0] == ','
    requires ParseMembers(rest[1..]) == Some(es)
    ensures ParseMembers(s) == Some([e] + es)
  {
    assert rest != "}";
  }

  /** Two or more members followed by `rest`: the first member, a comma, then
      the remaining members followed by `rest`. */
  lemma MembersThen(entries: seq<Entry>, rest: string)
    requires |entries| >= 2
    ensures Members(entries) + rest == Member(entries[0]) + ([','] + (Members(entries[1..]) + rest))
  {
    var first, others := Member(entries[0]), Members(entries[1..]);
    assert Members(entries) == first + [','] + others;
    Regroup(first, [','], others, rest);
  }

  /** Regrouping a concatenation of four sequences to the right. */
  lemma Regroup<T>(a: seq<T>, b: seq<T>, c: seq<T>, d: seq<T>)
    ensures a + b + c + d == a + (b + (c + d))
  {
  }

  lemma {:induction false} MembersRoundTrip(entries: seq<Entry>)
    requires |entries| >= 1
    ensures ParseMembers(Members(entries) + "}") == Some(entries)
  {
    if |entries| == 1 {
      assert Members(entries) == Member(entries[0]);
      MemberRoundTrip(entries[0], "}");
      assert ParseMembers(Member(entries[0]) + "}") == Some([entries[0]]);
      assert [entries[0]] == entries;
    } else {
      var tail := Members(entries[1..]) + "}";
      var afterFirst := [','] + tail;
      var input := Members(entries) + "}";
      MembersThen(entries, "}");
      MemberRoundTrip(entries[0], afterFirst);
      assert afterFirst[1..] == tail;
      MembersRoundTrip(entries[1..]);
      ParseMembersNext(input, entries[0], afterFirst, entries[1..]);
      assert [entries[0]] + entries[1..] == entries;
    }
  }

  /** `Stringify` always produces a well-formed JSON object, and that object
      has exactly the given members in the given order. */
  lemma StringifyRoundTrip(entries: seq<Entry>)
    ensures ParseObject(Stringify(entries)) == Some(entries)
  {
    var body := Members(entries) + "}";
    assert Stringify(entries)[1..] == body;
    if |entries| > 0 {
      MembersRoundTrip(entries);
      assert body != "}";
    } else {
      assert body == "}";
    }
  }

  /** Different objects never serialise to the same text. */
  lemma StringifyInjective(a: seq<Entry>, b: seq<Entry>)
    ensures Stringify(a) == Stringify(b) ==> a == b
  {
    StringifyRoundTrip(a);
    StringifyRoundTrip(b);
  }
}
