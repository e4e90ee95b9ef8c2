/** JSON trees and how they print. A C string is a string of its bytes; children
    hang in lists, as the source links them. */
module JsonTree {
  import opened Basics

  datatype Json =
    | Null
    | False
    | True
    | Number(value: int)
    | Text(s: string)
    | Array(items: Items)
    | Object(members: Members)

  datatype Items = NoItem | Item(head: Json, next: Items)

  datatype Members = NoMember | Member(key: string, head: Json, next: Members)

  const NESTING_LIMIT: nat := 1000

  // ---- numbers

  function Digit(d: nat): char
    requires d < 10
  {
    match d
    case 0 => '0' case 1 => '1' case 2 => '2' case 3 => '3' case 4 => '4'
    case 5 => '5' case 6 => '6' case 7 => '7' case 8 => '8' case _ => '9'
  }

  function Digits(n: nat): (s: string)
    ensures |s| > 0
  {
    if n < 10 then [Digit(n)] else Digits(n / 10) + [Digit(n % 10)]
  }

  // "%d"
  function Decimal(v: int): (s: string)
    ensures |s| > 0
  {
    if v < 0 then "-" + Digits(-v) else Digits(v)
  }

  // ---- strings

  function HexDigit(d: nat): char
    requires d < 16
  {
    if d < 10 then Digit(d)
    else
      match d
      case 10 => 'a' case 11 => 'b' case 12 => 'c' case 13 => 'd' case 14 => 'e' case _ => 'f'
  }

  // "u%04x" of a control character
  function ControlEscape(n: nat): (s: string)
    requires n < 256
    ensures |s| == 6
  {
    "\\u00" + [HexDigit(n / 16), HexDigit(n % 16)]
  }

  function EscapeChar(c: char): (s: string)
    ensures |s| > 0
  {
    if c == '\\' then "\\\\"
    else if c == '\"' then "\\\""
    else if c as int > 31 then [c]
    else if c as int == 8 then "\\b"
    else if c as int == 12 then "\\f"
    else if c == '\n' then "\\n"
    else if c == '\r' then "\\r"
    else if c == '\t' then "\\t"
    else ControlEscape(c as int)
  }

  function EscapeText(s: string): string {
    if s == "" then "" else EscapeChar(s[0]) + EscapeText(s[1..])
  }

  function Quoted(s: string): string {
    "\"" + EscapeText(s) + "\""
  }

  // ---- the printed text; `depth` counts the open arrays and objects

  function Tabs(n: nat): (t: string)
    ensures |t| == n && forall i | 0 <= i < n :: t[i] == '\t'
  {
    seq(n, _ => '\t')
  }

  // The pieces around keys and values
  function Indent(format: bool, depth: nat): (s: string)
    ensures forall i | 0 <= i < |s| :: s[i] == '\t'
  {
    if format then Tabs(depth) else ""
  }

  function Colon(format: bool): string {
    if format then ":\t" else ":"
  }

  function Newline(format: bool): string {
    if format then "\n" else ""
  }

  function Opening(format: bool): string {
    if format then "{\n" else "{"
  }

  function Render(j: Json, format: bool, depth: nat): string {
    match j
    case Null => "null"
    case False => "false"
    case True => "true"
    case Number(v) => Decimal(v)
    case Text(s) => Quoted(s)
    case Array(items) => "[" + RenderItems(items, format, depth + 1) + "]"
    case Object(members) =>
      Opening(format) + RenderMembers(members, format, depth + 1) + Indent(format, depth) + "}"
  }

  function Comma(format: bool): string {
    if format then ", " else ","
  }

  function RenderItems(items: Items, format: bool, depth: nat): string {
    match items
    case NoItem => ""
    case Item(head, next) =>
      Render(head, format, depth) + (if next.Item? then Comma(format) + RenderItems(next, format, depth) else "")
  }

  function RenderMembers(members: Members, format: bool, depth: nat): string {
    match members
    case NoMember => ""
    case Member(key, head, next) =>
      Indent(format, depth) + Quoted(key) + Colon(format)
      + Render(head, format, depth) + (if next.Member? then "," else "") + Newline(format)
      + RenderMembers(next, format, depth)
  }

  // ---- what prints

  // No array or object lies deeper than the limit.
  predicate Fits(j: Json, depth: nat) {
    match j
    case Array(items) => depth < NESTING_LIMIT && ItemsFit(items, depth + 1)
    case Object(members) => depth < NESTING_LIMIT && MembersFit(members, depth + 1)
    case _ => true
  }

  predicate ItemsFit(items: Items, depth: nat) {
    match items
    case NoItem => true
    case Item(head, next) => Fits(head, depth) && ItemsFit(next, depth)
  }

  predicate MembersFit(members: Members, depth: nat) {
    match members
    case NoMember => true
    case Member(key, head, next) => Fits(head, depth) && MembersFit(next, depth)
  }

  // print_value: nothing comes of a tree that is nested too deep
  function Print(j: Json, format: bool, depth: nat): Option<string> {
    if Fits(j, depth) then Some(Render(j, format, depth)) else None
  }

  // Bytes of a C string
  predicate Bytes8(s: string) {
    forall i | 0 <= i < |s| :: 0 < s[i] as int < 256
  }

  // 32-bit integers and NUL-free byte strings
  predicate Plain(j: Json) {
    match j
    case Number(v) => -0x8000_0000 <= v <= 0x7fff_ffff
    case Text(s) => Bytes8(s)
    case Array(items) => ItemsPlain(items)
    case Object(members) => MembersPlain(members)
    case _ => true
  }

  predicate ItemsPlain(items: Items) {
    match items
    case NoItem => true
    case Item(head, next) => Plain(head) && ItemsPlain(next)
  }

  predicate MembersPlain(members: Members) {
    match members
    case NoMember => true
    case Member(key, head, next) => Bytes8(key) && Plain(head) && MembersPlain(next)
  }
}
