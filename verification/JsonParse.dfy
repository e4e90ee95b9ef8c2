/** The JSON parser over a buffer and an offset, as functions. */
module JsonParse {
  import opened Basics
  import opened JsonTree

  // ---- UTF-16 literals

  function HexValue(c: char): int {
    if '0' <= c <= '9' then c as int - '0' as int
    else if 'A' <= c <= 'F' then 10 + c as int - 'A' as int
    else if 'a' <= c <= 'f' then 10 + c as int - 'a' as int
    else -1
  }

  // parse_hex4: a character that is no hex digit makes the whole of it zero
  function Hex4(t: string): (h: nat)
    requires |t| == 4
    ensures h < 0x1_0000
  {
    var (a, b, c, d) := (HexValue(t[0]), HexValue(t[1]), HexValue(t[2]), HexValue(t[3]));
    if a < 0 || b < 0 || c < 0 || d < 0 then 0 else a * 4096 + b * 256 + c * 16 + d
  }

  function Byte(b: nat): char
    requires b < 256
  {
    b as char
  }

  // One to four bytes, as the encoding loop of utf16_literal_to_utf8 lays them out
  function Utf8(cp: nat): (u: string)
    requires cp <= 0x10_ffff
    ensures 1 <= |u| <= 4
  {
    if cp < 0x80 then [Byte(cp)]
    else if cp < 0x800 then [Byte(0xc0 + cp / 64), Byte(0x80 + cp % 64)]
    else if cp < 0x1_0000 then [Byte(0xe0 + cp / 4096), Byte(0x80 + cp / 64 % 64), Byte(0x80 + cp % 64)]
    else [Byte(0xf0 + cp / 262144), Byte(0x80 + cp / 4096 % 64), Byte(0x80 + cp / 64 % 64), Byte(0x80 + cp % 64)]
  }

  // The literal at offset i, in a string that ends at `end`: its bytes and its length
  function Literal(c: string, i: nat, end: nat): Option<(string, nat)>
    requires i <= end <= |c|
  {
    if end - i < 6 then None
    else
      var first := Hex4(c[i + 2..i + 6]);
      if 0xdc00 <= first <= 0xdfff then None
      else if 0xd800 <= first <= 0xdbff then
        if end - (i + 6) < 6 || c[i + 6] != '\\' || c[i + 7] != 'u' then None
        else
          var second := Hex4(c[i + 8..i + 12]);
          if second < 0xdc00 || second > 0xdfff then None
          else Some((Utf8(0x1_0000 + (first % 1024) * 1024 + second % 1024), 12))
      else Some((Utf8(first), 6))
  }

  // ---- strings

  // The closing quote from offset i on; an escaped character is stepped over
  function CloseQuote(c: string, i: nat): (r: Option<nat>)
    requires i <= |c|
    ensures r.Some? ==> i <= r.value < |c| && c[r.value] == '\"'
    decreases |c| - i
  {
    if i == |c| then None
    else if c[i] == '\"' then Some(i)
    else if c[i] == '\\' then (if i + 1 >= |c| then None else CloseQuote(c, i + 2))
    else CloseQuote(c, i + 1)
  }

  // One escape sequence: the bytes it stands for and its length
  function Escape(c: string, i: nat, end: nat): (r: Option<(string, nat)>)
    requires i < end < |c|
    ensures r.Some? ==> r.value.1 >= 2
  {
    match c[i + 1]
    case 'b' => Some(([8 as char], 2))
    case 'f' => Some(([12 as char], 2))
    case 'n' => Some(("\n", 2))
    case 'r' => Some(("\r", 2))
    case 't' => Some(("\t", 2))
    case '\"' => Some(("\"", 2))
    case '\\' => Some(("\\", 2))
    case '/' => Some(("/", 2))
    case 'u' => Literal(c, i, end)
    case _ => None
  }

  // The decoding loop
  function Decode(c: string, i: nat, end: nat): Option<string>
    requires end < |c|
    decreases end - i
  {
    if i >= end then Some("")
    else if c[i] != '\\' then
      match Decode(c, i + 1, end)
      case None => None
      case Some(s) => Some([c[i]] + s)
    else
      match Escape(c, i, end)
      case None => None
      case Some((bytes, n)) =>
        match Decode(c, i + n, end)
        case None => None
        case Some(s) => Some(bytes + s)
  }

  // The C string at the start of some bytes: up to the first zero
  function CString(s: string): (r: string)
    ensures |r| <= |s| && r == s[..|r|] && forall i | 0 <= i < |r| :: r[i] as int != 0
    ensures |r| < |s| ==> s[|r|] as int == 0
  {
    if s == "" || s[0] as int == 0 then "" else [s[0]] + CString(s[1..])
  }

  // ---- results

  // What was parsed and the offset after it. `Beyond` is a number outside this
  // model: one that is not a decimal integer of 32 bits.
  datatype Result<T> = Parsed(value: T, off: nat) | Failed | Beyond

  // parse_string; what it keeps is a C string, which a decoded zero byte ends
  function ParseText(c: string, off: nat): (r: Result<string>)
    requires off <= |c|
    ensures r.Parsed? ==> off < r.off <= |c|
  {
    if off >= |c| || c[off] != '\"' then Failed
    else
      match CloseQuote(c, off + 1)
      case None => Failed
      case Some(end) =>
        match Decode(c, off + 1, end)
        case None => Failed
        case Some(s) => Parsed(CString(s), end + 1)
  }

  // ---- numbers

  predicate IsDigit(c: char) {
    '0' <= c <= '9'
  }

  predicate NumberChar(c: char) {
    IsDigit(c) || c == '+' || c == '-' || c == 'e' || c == 'E' || c == '.'
  }

  function RunEnd(c: string, i: nat): (r: nat)
    requires i <= |c|
    ensures i <= r <= |c|
    decreases |c| - i
  {
    if i < |c| && NumberChar(c[i]) then RunEnd(c, i + 1) else i
  }

  predicate AllDigits(t: string) {
    t != "" && forall i | 0 <= i < |t| :: IsDigit(t[i])
  }

  function DigitValue(c: char): nat {
    if IsDigit(c) then c as int - '0' as int else 0
  }

  // The value of decimal digits
  function ValueOf(t: string): nat {
    if t == "" then 0 else 10 * ValueOf(t[..|t| - 1]) + DigitValue(t[|t| - 1])
  }

  function ParseNumber(c: string, off: nat): (r: Result<int>)
    requires off < |c|
    ensures r.Parsed? ==> off < r.off <= |c|
  {
    var end := RunEnd(c, off);
    var t := c[off..end];
    var minus := t != "" && t[0] == '-';
    var digits := if minus then t[1..] else t;
    if !AllDigits(digits) then Beyond
    else
      var n: int := ValueOf(digits);
      var v: int := if minus then 0 - n else n;
      if v < -0x8000_0000 || v > 0x7fff_ffff then Beyond else Parsed(v, end)
  }

  // ---- values

  function FirstInk(c: string, i: nat): (r: nat)
    requires i <= |c|
    ensures i <= r <= |c|
    decreases |c| - i
  {
    if i < |c| && c[i] as int <= 32 then FirstInk(c, i + 1) else i
  }

  // buffer_skip_whitespace, which steps back from the end of the buffer
  function Skip(c: string, off: nat): (r: nat)
    requires off <= |c|
    ensures off <= r <= |c|
    ensures off < |c| ==> r < |c|
  {
    if off >= |c| then off
    else
      var i := FirstInk(c, off);
      if i == |c| then i - 1 else i
  }

  predicate Starts(c: string, off: nat, word: string)
    requires off <= |c|
  {
    off + |word| <= |c| && c[off..off + |word|] == word
  }

  function ParseValue(c: string, off: nat, depth: nat): (r: Result<Json>)
    requires off <= |c|
    ensures r.Parsed? ==> off < r.off <= |c|
    decreases |c| - off, 2
  {
    if Starts(c, off, "null") then Parsed(Null, off + 4)
    else if Starts(c, off, "false") then Parsed(False, off + 5)
    else if Starts(c, off, "true") then Parsed(True, off + 4)
    else if off == |c| then Failed
    else if c[off] == '\"' then
      match ParseText(c, off)
      case Parsed(s, next) => Parsed(Text(s), next)
      case Failed => Failed
      case Beyond => Beyond
    else if c[off] == '-' || IsDigit(c[off]) then
      match ParseNumber(c, off)
      case Parsed(v, next) => Parsed(Number(v), next)
      case Failed => Failed
      case Beyond => Beyond
    else if c[off] == '[' then ParseArray(c, off, depth)
    else if c[off] == '{' then ParseObject(c, off, depth)
    else Failed
  }

  function ParseArray(c: string, off: nat, depth: nat): (r: Result<Json>)
    requires off < |c|
    ensures r.Parsed? ==> off < r.off <= |c|
    decreases |c| - off, 1
  {
    if depth >= NESTING_LIMIT then Failed
    else
      var first := Skip(c, off + 1);
      if first < |c| && c[first] == ']' then Parsed(Array(NoItem), first + 1)
      else if first >= |c| then Failed
      else
        match ParseItems(c, first - 1, depth + 1)
        case Failed => Failed
        case Beyond => Beyond
        case Parsed(items, end) =>
          if end >= |c| || c[end] != ']' then Failed else Parsed(Array(items), end + 1)
  }

  // The element loop, from the character in front of an element
  function ParseItems(c: string, off: nat, depth: nat): (r: Result<Items>)
    requires off < |c|
    ensures r.Parsed? ==> off < r.off <= |c|
    decreases |c| - off, 0
  {
    match ParseValue(c, Skip(c, off + 1), depth)
    case Failed => Failed
    case Beyond => Beyond
    case Parsed(head, next) =>
      var end := Skip(c, next);
      if end < |c| && c[end] == ',' then
        match ParseItems(c, end, depth)
        case Failed => Failed
        case Beyond => Beyond
        case Parsed(rest, last) => Parsed(Item(head, rest), last)
      else Parsed(Item(head, NoItem), end)
  }

  function ParseObject(c: string, off: nat, depth: nat): (r: Result<Json>)
    requires off < |c|
    ensures r.Parsed? ==> off < r.off <= |c|
    decreases |c| - off, 1
  {
    if depth >= NESTING_LIMIT then Failed
    else
      var first := Skip(c, off + 1);
      if first < |c| && c[first] == '}' then Parsed(Object(NoMember), first + 1)
      else if first >= |c| then Failed
      else
        match ParseMembers(c, first - 1, depth + 1)
        case Failed => Failed
        case Beyond => Beyond
        case Parsed(members, end) =>
          if end >= |c| || c[end] != '}' then Failed else Parsed(Object(members), end + 1)
  }

  function ParseMembers(c: string, off: nat, depth: nat): (r: Result<Members>)
    requires off < |c|
    ensures r.Parsed? ==> off < r.off <= |c|
    decreases |c| - off, 0
  {
    if off + 1 >= |c| then Failed
    else
      match ParseText(c, Skip(c, off + 1))
      case Failed => Failed
      case Beyond => Beyond
      case Parsed(key, afterKey) =>
        var colon := Skip(c, afterKey);
        if colon >= |c| || c[colon] != ':' then Failed
        else
          match ParseValue(c, Skip(c, colon + 1), depth)
          case Failed => Failed
          case Beyond => Beyond
          case Parsed(head, next) =>
            var end := Skip(c, next);
            if end < |c| && c[end] == ',' then
              match ParseMembers(c, end, depth)
              case Failed => Failed
              case Beyond => Beyond
              case Parsed(rest, last) => Parsed(Member(key, head, rest), last)
            else Parsed(Member(key, head, NoMember), end)
  }

  // skip_utf8_bom
  function SkipBom(c: string): nat {
    if |c| > 4 && c[..3] == [0xef as char, 0xbb as char, 0xbf as char] then 3 else 0
  }

  /** cJSON_ParseWithLengthOpts; `whole` asks for a terminator after the value. */
  function Parse(c: string, whole: bool): Result<Json> {
    if c == "" then Failed
    else
      match ParseValue(c, Skip(c, SkipBom(c)), 0)
      case Failed => Failed
      case Beyond => Beyond
      case Parsed(j, off) =>
        if !whole then Parsed(j, off)
        else
          var end := Skip(c, off);
          if end >= |c| || c[end] as int != 0 then Failed else Parsed(j, end)
  }
}
