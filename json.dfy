/** JSON values and the compact, ASCII-only text `json.dumps` produces for them
    with `ensure_ascii=True` and `separators=(",", ":")` (RFC 8259 syntax). */
module Json {
  import opened Outcomes

  /** A JSON value as the payment code builds and parses it.  Integers and
      floats are kept apart because Python renders them differently; an
      object keeps its members in insertion order. */
  datatype JsonValue =
    | JNull
    | JBool(b: bool)
    | JInt(i: int)
    | JFloat(x: real)
    | JStr(s: string)
    | JList(items: seq<JsonValue>)
    | JObj(fields: seq<(string, JsonValue)>)

  /** Every character is printable ASCII (space to tilde). */
  predicate Printable(s: string) {
    forall i :: 0 <= i < |s| ==> ' ' <= s[i] <= '~'
  }

  /** The float formatter (`float.__repr__`) is a parameter of the model; what
      the model needs from it is that it writes a non-empty printable ASCII
      text. */
  ghost predicate ReprOk(floatRepr: real -> string) {
    forall x :: floatRepr(x) != [] && Printable(floatRepr(x))
  }

  lemma PrintableConcat(a: string, b: string)
    requires Printable(a) && Printable(b)
    ensures Printable(a + b)
  {
  }

  /** A lower-case hexadecimal digit. */
  function HexDigit(d: nat): (c: char)
    requires d < 16
    ensures ' ' <= c <= '~'
  {
    if d < 10 then ('0' as int + d) as char else ('a' as int + d - 10) as char
  }

  /** Four lower-case hexadecimal digits, as in `é`. */
  function Hex4(n: nat): (r: string)
    requires n < 0x1_0000
    ensures |r| == 4 && Printable(r)
  {
    [HexDigit(n / 0x1000), HexDigit(n / 0x100 % 16), HexDigit(n / 0x10 % 16), HexDigit(n % 16)]
  }

  /** The decimal text of an integer (`int.__repr__`). */
  function NatText(n: nat): (r: string)
    ensures r != [] && Printable(r)
  {
    if n < 10 then [('0' as int + n) as char] else NatText(n / 10) + [('0' as int + n % 10) as char]
  }

  function IntText(i: int): (r: string)
    ensures r != [] && Printable(r)
  {
    if i < 0 then "-" + NatText(-i) else NatText(i)
  }

  /** How one character of a string is written: quote, backslash and the five
      short control escapes by a backslash pair, the rest of printable ASCII as
      itself, and everything else as `\uXXXX` (a surrogate pair above U+FFFF). */
  function EscapeChar(c: char): (r: string)
    ensures r != [] && Printable(r)
    ensures r == [c] <==> ' ' <= c <= '~' && c != '"' && c != '\\'
  {
    if c == '"' then "\\\""
    else if c == '\\' then "\\\\"
    else if c == '\n' then "\\n"
    else if c == '\r' then "\\r"
    else if c == '\t' then "\\t"
    else if c == '\U{08}' then "\\b"
    else if c == '\U{0C}' then "\\f"
    else if ' ' <= c <= '~' then [c]
    else if (c as int) < 0x1_0000 then "\\u" + Hex4(c as int)
    else
      var v := c as int - 0x1_0000;
      "\\u" + Hex4(0xD800 + v / 0x400) + "\\u" + Hex4(0xDC00 + v % 0x400)
  }

  /** A string literal: the escaped characters between double quotes. */
  function Quote(s: string): (r: string)
    ensures |r| >= 2 && r[0] == '"' && r[|r| - 1] == '"'
    ensures Printable(r)
  {
    "\"" + Escaped(s) + "\""
  }

  function Escaped(s: string): (r: string)
    ensures Printable(r)
    ensures |r| >= |s|
    decreases |s|
  {
    if s == [] then [] else Escaped(s[..|s| - 1]) + EscapeChar(s[|s| - 1])
  }

  /** The parts separated by commas. */
  function Join(parts: seq<string>): string
    decreases |parts|
  {
    if parts == [] then ""
    else if |parts| == 1 then parts[0]
    else Join(parts[..|parts| - 1]) + "," + parts[|parts| - 1]
  }

  lemma {:induction false} JoinPrintable(parts: seq<string>)
    requires forall i :: 0 <= i < |parts| ==> Printable(parts[i])
    ensures Printable(Join(parts))
    decreases |parts|
  {
    if |parts| > 1 {
      JoinPrintable(parts[..|parts| - 1]);
      PrintableConcat(Join(parts[..|parts| - 1]), ",");
      PrintableConcat(Join(parts[..|parts| - 1]) + ",", parts[|parts| - 1]);
    }
  }

  /** `json.dumps(v, ensure_ascii=True, separators=(",", ":"))`. */
  function Serialize(v: JsonValue, floatRepr: real -> string): string
    decreases v
  {
    match v
    case JNull => "null"
    case JBool(b) => if b then "true" else "false"
    case JInt(i) => IntText(i)
    case JFloat(x) => floatRepr(x)
    case JStr(s) => Quote(s)
    case JList(items) =>
      "[" + Join(seq(|items|, k requires 0 <= k < |items| => Serialize(items[k], floatRepr))) + "]"
    case JObj(fields) =>
      "{" + Join(seq(|fields|, k requires 0 <= k < |fields| => Member(fields[k].0, fields[k].1, floatRepr, v))) + "}"
  }

  /** One object member, `"key":value`; `parent` carries the termination
      argument (the member's value is part of it). */
  function Member(key: string, value: JsonValue, floatRepr: real -> string, ghost parent: JsonValue): string
    requires value < parent
    decreases parent, 0
  {
    Quote(key) + ":" + Serialize(value, floatRepr)
  }

  /** With `ensure_ascii` and no indentation the text is printable ASCII, so in
      particular it holds no line break. */
  lemma {:induction false} SerializePrintable(v: JsonValue, floatRepr: real -> string)
    requires ReprOk(floatRepr)
    ensures Printable(Serialize(v, floatRepr))
    ensures Serialize(v, floatRepr) != []
    decreases v
  {
    match v
    case JNull =>
    case JBool(b) =>
    case JInt(i) =>
    case JFloat(x) =>
    case JStr(s) =>
    case JList(items) =>
      var parts := seq(|items|, k requires 0 <= k < |items| => Serialize(items[k], floatRepr));
      forall k | 0 <= k < |items|
        ensures Printable(parts[k])
      {
        SerializePrintable(items[k], floatRepr);
      }
      JoinPrintable(parts);
      PrintableConcat("[", Join(parts));
      PrintableConcat("[" + Join(parts), "]");
    case JObj(fields) =>
      var parts := seq(|fields|, k requires 0 <= k < |fields| => Member(fields[k].0, fields[k].1, floatRepr, v));
      forall k | 0 <= k < |fields|
        ensures Printable(parts[k])
      {
        SerializePrintable(fields[k].1, floatRepr);
        PrintableConcat(Quote(fields[k].0), ":");
        PrintableConcat(Quote(fields[k].0) + ":", Serialize(fields[k].1, floatRepr));
      }
      JoinPrintable(parts);
      PrintableConcat("{", Join(parts));
      PrintableConcat("{" + Join(parts), "}");
  }

  /** The value of the last member named `key` (a parsed object keeps the last
      of duplicate keys). */
  function Get(fields: seq<(string, JsonValue)>, key: string): Option<JsonValue>
    decreases |fields|
  {
    if fields == [] then None
    else if fields[|fields| - 1].0 == key then Some(fields[|fields| - 1].1)
    else Get(fields[..|fields| - 1], key)
  }

  /** A key no later member repeats reads as its own value. */
  lemma {:induction false} GetUnique(fields: seq<(string, JsonValue)>, k: nat)
    requires k < |fields|
    requires forall j :: k < j < |fields| ==> fields[j].0 != fields[k].0
    ensures Get(fields, fields[k].0) == Some(fields[k].1)
    decreases |fields|
  {
    if k < |fields| - 1 {
      var init := fields[..|fields| - 1];
      GetUnique(init, k);
    }
  }

  /** Python truthiness of a JSON value (`None`, `False`, `0`, `0.0`, `""`, `[]`
      and `{}` are false); a missing member reads as `None`. */
  predicate Truthy(v: Option<JsonValue>) {
    match v
    case None => false
    case Some(JNull) => false
    case Some(JBool(b)) => b
    case Some(JInt(i)) => i != 0
    case Some(JFloat(x)) => x != 0.0
    case Some(JStr(s)) => s != ""
    case Some(JList(items)) => items != []
    case Some(JObj(fields)) => fields != []
  }
}
