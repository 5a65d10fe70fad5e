/**
 JSON documents as `serde_json` holds them, their two printed forms, and the
 hand-written compactor of the prompt-snapshot store.
 */
module Json {
  import opened Basics

  /** A JSON value. Numbers and strings carry the exact text between (for strings: inside) their
      delimiters, since the printers emit scalars identically in both modes. */
  datatype Value =
    | Null
    | Bool(b: bool)
    | Number(literal: string)
    | Str(text: string)
    | Arr(items: seq<Value>)
    | Obj(fields: seq<Field>)

  datatype Field = Field(name: string, value: Value)

  /** `Value::get(key)`: `None` on anything that is not an object. */
  function Get(v: Value, key: string): Option<Value> {
    if v.Obj? then Find(v.fields, key) else None
  }

  function Find(fields: seq<Field>, key: string): Option<Value> {
    if fields == [] then None
    else if fields[0].name == key then Some(fields[0].value)
    else Find(fields[1..], key)
  }

  function GetStr(v: Value, key: string): Option<string> {
    match Get(v, key)
    case Some(Str(text)) => Some(text)
    case _ => None
  }

  // ---------------------------------------------------------------------------
  // The two printers.
  // ---------------------------------------------------------------------------

  const HEX := "0123456789abcdef"

  /** One character of a string literal, escaped as section 7 of RFC 8259 requires. */
  function EscapeChar(c: char): string {
    if c == '"' then "\\\""
    else if c == '\\' then "\\\\"
    else if c == '\n' then "\\n"
    else if c == '\r' then "\\r"
    else if c == '\t' then "\\t"
    else if c as int == 8 then "\\b"
    else if c as int == 12 then "\\f"
    else if c as int < 32 then "\\u00" + [HEX[c as int / 16], HEX[c as int % 16]]
    else [c]
  }

  function Escape(s: string): string {
    if s == [] then [] else EscapeChar(s[0]) + Escape(s[1..])
  }

  function Quote(s: string): string {
    ['"'] + Escape(s) + ['"']
  }

  function Scalar(v: Value): string
    requires !v.Arr? && !v.Obj?
  {
    match v
    case Null => "null"
    case Bool(b) => if b then "true" else "false"
    case Number(literal) => literal
    case Str(text) => Quote(text)
  }

  /** `serde_json::to_vec`: no whitespace at all. */
  function Compact(v: Value): string
    decreases v, 1
  {
    match v
    case Arr(items) => "[" + CompactItems(items) + "]"
    case Obj(fields) => "{" + CompactFields(fields) + "}"
    case _ => Scalar(v)
  }

  function CompactItems(items: seq<Value>): string
    decreases items, 0
  {
    if items == [] then ""
    else if |items| == 1 then Compact(items[0])
    else Compact(items[0]) + "," + CompactItems(items[1..])
  }

  function CompactFields(fields: seq<Field>): string
    decreases fields, 0
  {
    if fields == [] then ""
    else
      var head := Quote(fields[0].name) + ":" + Compact(fields[0].value);
      if |fields| == 1 then head else head + "," + CompactFields(fields[1..])
  }

  function Indent(depth: nat): string {
    if depth == 0 then "" else "  " + Indent(depth - 1)
  }

  /** `serde_json::to_vec_pretty` at nesting level `depth`: two spaces a level, one element a line,
      a space after each colon, and `[]` or `{}` for an empty container. */
  function Pretty(v: Value, depth: nat): string
    decreases v, 1
  {
    match v
    case Arr(items) =>
      if items == [] then "[]"
      else "[" + PrettyItems(items, depth + 1) + ("\n" + Indent(depth)) + "]"
    case Obj(fields) =>
      if fields == [] then "{}"
      else "{" + PrettyFields(fields, depth + 1) + ("\n" + Indent(depth)) + "}"
    case _ => Scalar(v)
  }

  function PrettyItems(items: seq<Value>, depth: nat): string
    decreases items, 0
  {
    if items == [] then ""
    else
      var head := "\n" + Indent(depth) + Pretty(items[0], depth);
      if |items| == 1 then head else head + "," + PrettyItems(items[1..], depth)
  }

  function PrettyFields(fields: seq<Field>, depth: nat): string
    decreases fields, 0
  {
    if fields == [] then ""
    else
      var head := "\n" + Indent(depth) + Quote(fields[0].name) + ": " + Pretty(fields[0].value, depth);
      if |fields| == 1 then head else head + "," + PrettyFields(fields[1..], depth)
  }

  /** Every number is spelled with the characters section 6 of RFC 8259 allows. */
  ghost predicate WellSpelled(v: Value) {
    match v
    case Number(literal) => literal != [] && forall i | 0 <= i < |literal| :: IsNumberChar(literal[i])
    case Arr(items) => forall i | 0 <= i < |items| :: WellSpelled(items[i])
    case Obj(fields) => forall i | 0 <= i < |fields| :: WellSpelled(fields[i].value)
    case _ => true
  }

  predicate IsNumberChar(c: char) {
    '0' <= c <= '9' || c == '-' || c == '+' || c == '.' || c == 'e' || c == 'E'
  }
}
