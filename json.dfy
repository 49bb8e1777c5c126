/**
 * JSON values as the server sees them after `res.json()`: objects are their
 * property lists in enumeration order (the order `Object.keys` and
 * `JSON.stringify` visit them), numbers are integers.
 */
module Json {
  import opened Wrappers
  import opened Text

  datatype Json =
    | JNull
    | JBool(b: bool)
    | JNumber(n: int)
    | JString(s: string)
    | JArray(items: seq<Json>)
    | JObject(props: seq<Property>)

  datatype Property = Property(key: string, value: Json)

  /** JavaScript truthiness of a JSON value. */
  predicate Truthy(j: Json) {
    match j
    case JNull => false
    case JBool(b) => b
    case JNumber(n) => n != 0
    case JString(s) => s != ""
    case _ => true
  }

  /** `props[key]`, or absent. */
  function Lookup(props: seq<Property>, key: string): (r: Option<Json>)
    ensures r.Some? <==> exists i :: 0 <= i < |props| && props[i].key == key
    ensures r.Some? ==> exists i :: 0 <= i < |props| && props[i] == Property(key, r.value)
  {
    if props == [] then None
    else if props[0].key == key then Some(props[0].value)
    else
      var r := Lookup(props[1..], key);
      assert forall i :: 1 <= i < |props| ==> props[i] == props[1..][i - 1];
      r
  }

  /** `j.key` in JavaScript: only objects have named fields. */
  function Field(j: Json, key: string): Option<Json> {
    if j.JObject? then Lookup(j.props, key) else None
  }

  /** `(j.key || '')`: the field when it is truthy, else the empty string. */
  function FieldOrEmpty(j: Json, key: string): (r: Json)
    ensures Truthy(r) || r == JString("")
  {
    match Field(j, key)
    case Some(v) => if Truthy(v) then v else JString("")
    case None => JString("")
  }

  /** `(v || '')` for a value that is already a JSON value. */
  function OrEmpty(v: Json): (r: Json)
    ensures Truthy(v) ==> r == v
    ensures !Truthy(v) ==> r == JString("")
  {
    if Truthy(v) then v else JString("")
  }

  function HexDigit(d: nat): char
    requires d < 16
  {
    ("0123456789abcdef")[d]
  }

  /** How `JSON.stringify` writes one character inside a string literal. */
  function EscapeChar(c: char): string {
    if c == '"' then "\\\""
    else if c == '\\' then "\\\\"
    else if c == '\U{8}' then "\\b"
    else if c == '\U{C}' then "\\f"
    else if c == '\n' then "\\n"
    else if c == '\r' then "\\r"
    else if c == '\t' then "\\t"
    else if (c as int) < 0x20 then "\\u00" + [HexDigit(c as int / 16), HexDigit(c as int % 16)]
    else [c]
  }

  function Quote(s: string): string {
    "\"" + QuoteBody(s) + "\""
  }

  function QuoteBody(s: string): string {
    if s == [] then "" else EscapeChar(s[0]) + QuoteBody(s[1..])
  }

  /** `JSON.stringify(j)`: never empty, and its first character tells the kind
      of value, a string, an array or an object. */
  function Stringify(j: Json): (r: string)
    decreases j
    ensures r != []
    ensures j.JString? ==> r[0] == '"' && r[|r| - 1] == '"'
    ensures j.JArray? ==> r[0] == '[' && r[|r| - 1] == ']'
    ensures j.JObject? ==> r[0] == '{' && r[|r| - 1] == '}'
  {
    match j
    case JNull => "null"
    case JBool(b) => if b then "true" else "false"
    case JNumber(n) => IntToString(n)
    case JString(s) => Quote(s)
    case JArray(items) => "[" + StringifyItems(items) + "]"
    case JObject(props) => "{" + StringifyProps(props) + "}"
  }

  function StringifyItems(items: seq<Json>): string
    decreases items
  {
    if items == [] then ""
    else if |items| == 1 then Stringify(items[0])
    else Stringify(items[0]) + "," + StringifyItems(items[1..])
  }

  function StringifyProps(props: seq<Property>): string
    decreases props
  {
    if props == [] then ""
    else
      var first := Quote(props[0].key) + ":" + Stringify(props[0].value);
      if |props| == 1 then first else first + "," + StringifyProps(props[1..])
  }
}
