/** The JSON values a card template file holds, with the parts of JavaScript's
    object model the template provider relies on: `JSON.stringify`, truthiness,
    `typeof`, property lookup and the values a `for (let i in v)` loop visits.
    Numbers are integers. */
module Json {
  import opened Wrappers
  import opened Strings

  /** One member `"key": value` of an object, in source order. */
  datatype Field = Field(key: string, value: Json)

  datatype Json =
    | JNull
    | JBool(b: bool)
    | JNum(n: int)
    | JStr(s: string)
    | JArr(items: seq<Json>)
    | JObj(fields: seq<Field>)

  /** `typeof v == 'object'`: arrays, objects and also `null`. */
  predicate IsObjectTyped(v: Json)
  {
    v.JNull? || v.JArr? || v.JObj?
  }

  /** JavaScript truthiness of a JSON value. */
  predicate JsTruthy(v: Json)
  {
    match v
    case JNull => false
    case JBool(b) => b
    case JNum(n) => n != 0
    case JStr(s) => s != ""
    case _ => true
  }

  /** `o[key]` on an object's members: the first member with that key. */
  function Get(fields: seq<Field>, key: string): (r: Option<Json>)
    ensures r.None? <==> forall i :: 0 <= i < |fields| ==> fields[i].key != key
    ensures r.Some? ==> exists i :: 0 <= i < |fields| && fields[i] == Field(key, r.value)
  {
    if fields == [] then None
    else if fields[0].key == key then Some(fields[0].value)
    else
      var r := Get(fields[1..], key);
      assert r.Some? ==> exists i :: 0 <= i < |fields[1..]| && fields[1..][i] == Field(key, r.value);
      r
  }

  /** `v[key]` for any value: only objects have named properties here. */
  function Property(v: Json, key: string): Option<Json>
  {
    if v.JObj? then Get(v.fields, key) else None
  }

  /** The values `v[i]` for the keys `i` that `for (let i in v)` enumerates: the member
      values of an object, the items of an array, the one-character strings of a
      string, and nothing for `null`, booleans and numbers. */
  function Members(v: Json): (r: seq<Json>)
    ensures v.JObj? ==> |r| == |v.fields| && forall i :: 0 <= i < |r| ==> r[i] == v.fields[i].value
    ensures v.JArr? ==> r == v.items
    ensures v.JStr? ==> |r| == |v.s| && forall i :: 0 <= i < |r| ==> r[i] == JStr([v.s[i]])
    ensures v.JNull? || v.JBool? || v.JNum? ==> r == []
  {
    match v
    case JObj(fields) => seq(|fields|, i requires 0 <= i < |fields| => fields[i].value)
    case JArr(items) => items
    case JStr(s) => seq(|s|, i requires 0 <= i < |s| => JStr([s[i]]))
    case _ => []
  }

  function HexDigit(d: nat): (c: char)
    requires d < 16
  {
    if d < 10 then '0' + d as char else 'a' + (d - 10) as char
  }

  /** How `JSON.stringify` writes one character inside a string literal. */
  function EscapeChar(c: char): (r: string)
    ensures 1 <= |r| <= 6
    ensures '{' in r ==> r == "{"
    ensures |r| > 2 ==> c < ' '
  {
    if c == '"' then "\\\""
    else if c == '\\' then "\\\\"
    else if c == '\U{0008}' then "\\b"
    else if c == '\U{000C}' then "\\f"
    else if c == '\n' then "\\n"
    else if c == '\r' then "\\r"
    else if c == '\t' then "\\t"
    else if c < ' ' then "\\u00" + [HexDigit(c as int / 16), HexDigit(c as int % 16)]
    else [c]
  }

  function Escape(s: string): string
  {
    if s == [] then "" else EscapeChar(s[0]) + Escape(s[1..])
  }

  /** A string literal as `JSON.stringify` writes it. */
  function Quote(s: string): (r: string)
    ensures |r| >= 2 && r[0] == '"' && r[|r| - 1] == '"'
  {
    "\"" + Escape(s) + "\""
  }

  function IntText(n: int): string
  {
    if n < 0 then "-" + Decimal(-n) else Decimal(n)
  }

  /** `JSON.stringify(v)`: the compact serialisation. */
  function Stringify(v: Json): string
    decreases v
  {
    match v
    case JNull => "null"
    case JBool(b) => if b then "true" else "false"
    case JNum(n) => IntText(n)
    case JStr(s) => Quote(s)
    case JArr(items) => "[" + StringifyItems(items) + "]"
    case JObj(fields) => "{" + StringifyFields(fields) + "}"
  }

  function StringifyItems(items: seq<Json>): string
    decreases items
  {
    if items == [] then ""
    else if |items| == 1 then Stringify(items[0])
    else Stringify(items[0]) + "," + StringifyItems(items[1..])
  }

  function StringifyFields(fields: seq<Field>): string
    decreases fields
  {
    if fields == [] then ""
    else
      var member := Quote(fields[0].key) + ":" + Stringify(fields[0].value);
      if |fields| == 1 then member else member + "," + StringifyFields(fields[1..])
  }

  /** A one-character string serialises to three, four or eight characters; the longest
      form is a `\u00XX` escape and holds no brace. */
  lemma OneCharQuote(c: char)
    ensures var q := Stringify(JStr([c]));
            |q| <= 4 || forall i :: 0 <= i < |q| ==> q[i] != '{'
  {
    assert Escape([c]) == EscapeChar(c) + Escape([]);
    var e := EscapeChar(c);
    if |e| > 2 {
      assert '{' !in e;
    }
  }
}
