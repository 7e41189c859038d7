/**
 * JSON values and the text `JSON.stringify` produces for them (no spacing,
 * members in the order given, strings quoted as in the ECMAScript
 * QuoteJSONString operation). Numbers are integers here. `JSON.stringify`
 * lists integer-like keys ("0", "17") first, in ascending order, before the
 * other keys; that reordering is not modelled, so an object is written in
 * member order.
 */
module Json {
  import opened Base

  datatype Json =
    | JNull
    | JBool(b: bool)
    | JNumber(n: int)
    | JString(s: string)
    | JArray(items: seq<Json>)
    | JObject(members: seq<Member>)

  datatype Member = Member(key: string, value: Json)

  /** The value of property `key` (the first member with that key), or `None` for `undefined`. */
  function Get(members: seq<Member>, key: string): Option<Json>
  {
    if members == [] then None
    else if members[0].key == key then Some(members[0].value)
    else Get(members[1..], key)
  }

  /** Members before the first with `key` do not change what `Get` finds. */
  lemma {:induction false} GetSkip(members: seq<Member>, k: nat, key: string)
    requires k <= |members|
    requires forall j :: 0 <= j < k ==> members[j].key != key
    ensures Get(members, key) == Get(members[k..], key)
  {
    if k > 0 {
      GetSkip(members[1..], k - 1, key);
      assert members[1..][k - 1..] == members[k..];
    }
  }

  /** JavaScript truthiness of a property value; a missing property is `undefined`, which is falsy. */
  predicate TruthyValue(v: Option<Json>)
  {
    match v
    case None => false
    case Some(JNull) => false
    case Some(JBool(b)) => b
    case Some(JNumber(n)) => n != 0
    case Some(JString(s)) => s != ""
    case Some(JArray(_)) => true
    case Some(JObject(_)) => true
  }

  // ---------------------------------------------------------------------------
  // Stringification

  function HexDigit(d: nat): char
    requires d < 16
  {
    "0123456789abcdef"[d]
  }

  /** How one character of a string appears between the quotes. */
  function EscapeChar(c: char): string
  {
    if c == '"' then "\\\""
    else if c == '\\' then "\\\\"
    else if c == 8 as char then "\\b"
    else if c == '\t' then "\\t"
    else if c == '\n' then "\\n"
    else if c == 12 as char then "\\f"
    else if c == '\r' then "\\r"
    else if c < ' ' then "\\u00" + [HexDigit(c as int / 16), HexDigit(c as int % 16)]
    else [c]
  }

  function Escape(s: string): string
  {
    if s == [] then "" else EscapeChar(s[0]) + Escape(s[1..])
  }

  function Quote(s: string): string
  {
    "\"" + Escape(s) + "\""
  }

  function Stringify(j: Json): string
    decreases j
  {
    match j
    case JNull => "null"
    case JBool(b) => if b then "true" else "false"
    case JNumber(n) => IntToString(n)
    case JString(s) => Quote(s)
    case JArray(items) => "[" + StringifyItems(items) + "]"
    case JObject(members) => "{" + StringifyMembers(members) + "}"
  }

  function StringifyItems(items: seq<Json>): string
    decreases items
  {
    if items == [] then ""
    else if |items| == 1 then Stringify(items[0])
    else Stringify(items[0]) + "," + StringifyItems(items[1..])
  }

  function StringifyMembers(members: seq<Member>): string
    decreases members
  {
    if members == [] then ""
    else
      var m := members[0];
      var text := Quote(m.key) + ":" + Stringify(m.value);
      if |members| == 1 then text else text + "," + StringifyMembers(members[1..])
  }

  // ---------------------------------------------------------------------------
  // Stringified JSON never holds a control character, so it never breaks a line.

  /** No character below the space, in particular no line feed. */
  predicate Printable(s: string)
  {
    forall i :: 0 <= i < |s| ==> ' ' <= s[i]
  }

  lemma PrintableConcat(a: string, b: string)
    requires Printable(a) && Printable(b)
    ensures Printable(a + b)
  {
    forall i | 0 <= i < |a + b|
      ensures ' ' <= (a + b)[i]
    {
      if i >= |a| {
        assert (a + b)[i] == b[i - |a|];
      }
    }
  }

  lemma PrintableNumber(n: int)
    ensures Printable(IntToString(n))
  {
    var d := NatToString(if n < 0 then -n else n);
    assert forall i :: 0 <= i < |d| ==> IsDigit(d[i]);
    PrintableConcat("-", d);
  }

  lemma {:induction false} PrintableEscape(s: string)
    ensures Printable(Escape(s))
  {
    if s != [] {
      PrintableEscape(s[1..]);
      PrintableEscapeChar(s[0]);
      PrintableConcat(EscapeChar(s[0]), Escape(s[1..]));
    }
  }

  lemma PrintableEscapeChar(c: char)
    ensures Printable(EscapeChar(c))
  {
    if !ShortEscaped(c) && c < ' ' {
      var digits := [HexDigit(c as int / 16), HexDigit(c as int % 16)];
      assert Printable(digits);
      PrintableConcat("\\u00", digits);
    }
  }

  lemma PrintableQuote(s: string)
    ensures Printable(Quote(s))
  {
    PrintableEscape(s);
    PrintableConcat("\"", Escape(s));
    PrintableConcat("\"" + Escape(s), "\"");
  }

  /** `JSON.stringify` output is a single line of text without control characters. */
  lemma {:induction false} PrintableStringify(j: Json)
    ensures Printable(Stringify(j))
    decreases j
  {
    match j
    case JNull =>
    case JBool(b) =>
    case JNumber(n) => PrintableNumber(n);
    case JString(s) => PrintableQuote(s);
    case JArray(items) =>
      PrintableItems(items);
      PrintableConcat("[", StringifyItems(items));
      PrintableConcat("[" + StringifyItems(items), "]");
    case JObject(members) =>
      PrintableMembers(members);
      PrintableConcat("{", StringifyMembers(members));
      PrintableConcat("{" + StringifyMembers(members), "}");
  }

  lemma {:induction false} PrintableItems(items: seq<Json>)
    ensures Printable(StringifyItems(items))
    decreases items
  {
    if items != [] {
      PrintableStringify(items[0]);
      if |items| > 1 {
        PrintableItems(items[1..]);
        PrintableConcat(Stringify(items[0]), ",");
        PrintableConcat(Stringify(items[0]) + ",", StringifyItems(items[1..]));
      }
    }
  }

  lemma {:induction false} PrintableMembers(members: seq<Member>)
    ensures Printable(StringifyMembers(members))
    decreases members
  {
    if members != [] {
      var m := members[0];
      PrintableQuote(m.key);
      PrintableStringify(m.value);
      PrintableConcat(Quote(m.key), ":");
      PrintableConcat(Quote(m.key) + ":", Stringify(m.value));
      var text := Quote(m.key) + ":" + Stringify(m.value);
      if |members| > 1 {
        PrintableMembers(members[1..]);
        PrintableConcat(text, ",");
        PrintableConcat(text + ",", StringifyMembers(members[1..]));
      }
    }
  }

  // ---------------------------------------------------------------------------
  // Escaping is reversible, so a quoted string determines its contents.

  /** Reads back the text between the quotes; `None` on a malformed escape. */
  function Unescape(e: string): Option<string>
  {
    if e == [] then Some([])
    else if e[0] != '\\' then
      match Unescape(e[1..])
      case Some(rest) => Some([e[0]] + rest)
      case None => None
    else if |e| >= 2 && e[1] in "\"\\btnfr" then
      var c := if e[1] == 'b' then 8 as char
               else if e[1] == 't' then '\t'
               else if e[1] == 'n' then '\n'
               else if e[1] == 'f' then 12 as char
               else if e[1] == 'r' then '\r'
               else e[1];
      match Unescape(e[2..])
      case Some(rest) => Some([c] + rest)
      case None => None
    else if |e| >= 6 && e[1] == 'u' && e[2] == '0' && e[3] == '0' && HexValue(e[4]).Some? && HexValue(e[5]).Some? then
      var c := (HexValue(e[4]).value * 16 + HexValue(e[5]).value) as char;
      match Unescape(e[6..])
      case Some(rest) => Some([c] + rest)
      case None => None
    else None
  }

  function HexValue(c: char): (r: Option<nat>)
    ensures r.Some? ==> r.value < 16
  {
    if '0' <= c <= '9' then Some(c as int - '0' as int)
    else if 'a' <= c <= 'f' then Some(c as int - 'a' as int + 10)
    else None
  }

  lemma EscapeCharPrefix(c: char, rest: string, tail: string)
    requires Unescape(rest) == Some(tail)
    ensures Unescape(EscapeChar(c) + rest) == Some([c] + tail)
  {
    if ShortEscaped(c) {
      ShortEscapePrefix(c, rest, tail);
    } else if c < ' ' {
      ControlEscapePrefix(c, rest, tail);
    } else {
      var e := EscapeChar(c) + rest;
      assert e[1..] == rest;
    }
  }

  /** The characters with a two-character escape. */
  predicate ShortEscaped(c: char)
  {
    c == '"' || c == '\\' || c == 8 as char || c == '\t' || c == '\n' || c == 12 as char || c == '\r'
  }

  lemma ShortEscapePrefix(c: char, rest: string, tail: string)
    requires ShortEscaped(c) && Unescape(rest) == Some(tail)
    ensures Unescape(EscapeChar(c) + rest) == Some([c] + tail)
  {
    var e := EscapeChar(c) + rest;
    assert e[2..] == rest;
  }

  lemma ControlEscapePrefix(c: char, rest: string, tail: string)
    requires !ShortEscaped(c) && c < ' ' && Unescape(rest) == Some(tail)
    ensures Unescape(EscapeChar(c) + rest) == Some([c] + tail)
  {
    var hi, lo := c as int / 16, c as int % 16;
    HexDigitValue(hi);
    HexDigitValue(lo);
    var e := EscapeChar(c) + rest;
    assert e[6..] == rest;
  }

  lemma HexDigitValue(d: nat)
    requires d < 16
    ensures HexValue(HexDigit(d)) == Some(d)
  {
  }

  /** Unescaping the escaped text of `s` gives `s` back. */
  lemma {:induction false} UnescapeEscape(s: string)
    ensures Unescape(Escape(s)) == Some(s)
  {
    if s != [] {
      UnescapeEscape(s[1..]);
      EscapeCharPrefix(s[0], Escape(s[1..]), s[1..]);
      assert [s[0]] + s[1..] == s;
    }
  }

  /** Two strings with the same JSON text are the same string. */
  lemma QuoteInjective(a: string, b: string)
    requires Quote(a) == Quote(b)
    ensures a == b
  {
    assert Escape(a) == Quote(a)[1..|Quote(a)| - 1];
    assert Escape(b) == Quote(b)[1..|Quote(b)| - 1];
    UnescapeEscape(a);
    UnescapeEscape(b);
  }
}
