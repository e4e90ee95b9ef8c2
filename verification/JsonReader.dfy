/** The parser over its cursor: every method moves the offset and answers as the
    parsing functions say. */
module JsonReader {
  import opened Basics
  import opened JsonTree
  import opened JsonParse

  // ---- appending to a list of children

  function Joined(done: Items, rest: Items): Items {
    match done
    case NoItem => rest
    case Item(head, next) => Item(head, Joined(next, rest))
  }

  lemma {:induction false} JoinedOne(done: Items, head: Json, rest: Items)
    ensures Joined(Joined(done, Item(head, NoItem)), rest) == Joined(done, Item(head, rest))
  {
    match done
    case NoItem =>
    case Item(_, next) => JoinedOne(next, head, rest);
  }

  function JoinedMembers(done: Members, rest: Members): Members {
    match done
    case NoMember => rest
    case Member(key, head, next) => Member(key, head, JoinedMembers(next, rest))
  }

  lemma {:induction false} JoinedMember(done: Members, key: string, head: Json, rest: Members)
    ensures JoinedMembers(JoinedMembers(done, Member(key, head, NoMember)), rest)
         == JoinedMembers(done, Member(key, head, rest))
  {
    match done
    case NoMember =>
    case Member(_, _, next) => JoinedMember(next, key, head, rest);
  }

  // Elements already read in front of what an element loop reads
  function After(done: Items, r: Result<Items>): Result<Items> {
    match r
    case Parsed(rest, off) => Parsed(Joined(done, rest), off)
    case Failed => Failed
    case Beyond => Beyond
  }

  function AfterMembers(done: Members, r: Result<Members>): Result<Members> {
    match r
    case Parsed(rest, off) => Parsed(JoinedMembers(done, rest), off)
    case Failed => Failed
    case Beyond => Beyond
  }

  // One round of the element loop
  lemma OneElement(c: string, off: nat, depth: nat, done: Items)
    requires off < |c|
    ensures var v := ParseValue(c, Skip(c, off + 1), depth);
            && (v.Failed? ==> After(done, ParseItems(c, off, depth)) == Failed)
            && (v.Beyond? ==> After(done, ParseItems(c, off, depth)) == Beyond)
            && (v.Parsed? ==>
                  var more := Joined(done, Item(v.value, NoItem));
                  var end := Skip(c, v.off);
                  && (end < |c| && c[end] == ',' ==>
                        After(done, ParseItems(c, off, depth)) == After(more, ParseItems(c, end, depth)))
                  && (!(end < |c| && c[end] == ',') ==> After(done, ParseItems(c, off, depth)) == Parsed(more, end)))
  {
    hide ParseValue, Skip;
    var v := ParseValue(c, Skip(c, off + 1), depth);
    if v.Parsed? {
      var end := Skip(c, v.off);
      if end < |c| && c[end] == ',' {
        var rest := ParseItems(c, end, depth);
        if rest.Parsed? {
          JoinedOne(done, v.value, rest.value);
        }
      }
    }
  }

  class ParseBuffer {
    const content: string
    var offset: nat
    var depth: nat

    ghost predicate Valid()
      reads this
    {
      offset <= |content|
    }

    constructor (content: string)
      ensures this.content == content && offset == 0 && depth == 0
    {
      this.content, offset, depth := content, 0, 0;
    }

    method SkipWhitespace()
      requires Valid()
      modifies this`offset
      ensures Valid() && offset == Skip(content, old(offset))
    {
      if offset >= |content| {
        return;
      }
      while offset < |content| && content[offset] as int <= 32
        invariant offset <= |content| && FirstInk(content, offset) == FirstInk(content, old(offset))
        decreases |content| - offset
      {
        offset := offset + 1;
      }
      if offset == |content| {
        offset := offset - 1;
      }
    }

    /** The encoding loop of utf16_literal_to_utf8, from the last byte to the first.
        `(codepoint | 0x80) & 0xBF` keeps six bits and `codepoint >>= 6` drops them. */
    method Encode(cp: nat) returns (u: string)
      requires cp <= 0x10_ffff
      ensures u == Utf8(cp)
    {
      var length, mark := 1, 0;
      if 0x80 <= cp < 0x800 {
        length, mark := 2, 0xc0;
      } else if 0x800 <= cp < 0x1_0000 {
        length, mark := 3, 0xe0;
      } else if 0x1_0000 <= cp {
        length, mark := 4, 0xf0;
      }
      var rest, position := cp, length - 1;
      u := "";
      while position > 0
        invariant 0 <= position < length && |u| == length - 1 - position
        invariant rest == if |u| == 0 then cp else if |u| == 1 then cp / 64 else if |u| == 2 then cp / 4096 else cp / 262144
        invariant |u| >= 1 ==> u[|u| - 1] == Byte(0x80 + cp % 64)
        invariant |u| >= 2 ==> u[|u| - 2] == Byte(0x80 + cp / 64 % 64)
        invariant |u| >= 3 ==> u[|u| - 3] == Byte(0x80 + cp / 4096 % 64)
        decreases position
      {
        u := [Byte(0x80 + rest % 64)] + u;
        rest := rest / 64;
        position := position - 1;
      }
      u := [Byte(mark + rest)] + u;
    }

    // The scan for the closing quote
    method FindQuote(from: nat) returns (end: Option<nat>)
      requires from <= |content|
      ensures end == CloseQuote(content, from)
    {
      var i := from;
      while i < |content| && content[i] != '\"'
        invariant i <= |content| && CloseQuote(content, i) == CloseQuote(content, from)
        decreases |content| - i
      {
        if content[i] == '\\' {
          if i + 1 >= |content| {
            return None;
          }
          i := i + 1;
        }
        i := i + 1;
      }
      return if i < |content| then Some(i) else None;
    }

    // The decoding loop
    method Unescape(from: nat, end: nat) returns (r: Option<string>)
      requires from <= end < |content|
      ensures r == Decode(content, from, end)
    {
      hide Decode, Escape;
      var i, bytes := from, "";
      GivenNothing(Decode(content, from, end));
      while i < end
        invariant Given(bytes, Decode(content, i, end)) == Decode(content, from, end)
        decreases end - i
      {
        if content[i] != '\\' {
          GivenStep(content, i, end, bytes, [content[i]], 1);
          bytes := bytes + [content[i]];
          i := i + 1;
        } else {
          var e := DecodeEscape(i, end);
          if e.None? {
            NoEscape(content, i, end);
            return None;
          }
          GivenStep(content, i, end, bytes, e.value.0, e.value.1);
          bytes := bytes + e.value.0;
          i := i + e.value.1;
        }
      }
      GivenEnd(bytes, content, i, end);
      return Some(bytes);
    }

    // One escape sequence
    method DecodeEscape(i: nat, end: nat) returns (r: Option<(string, nat)>)
      requires i < end < |content|
      ensures r == Escape(content, i, end)
    {
      hide Literal;
      match content[i + 1]
      case 'b' => r := Some(([8 as char], 2));
      case 'f' => r := Some(([12 as char], 2));
      case 'n' => r := Some(("\n", 2));
      case 'r' => r := Some(("\r", 2));
      case 't' => r := Some(("\t", 2));
      case '\"' => r := Some(("\"", 2));
      case '\\' => r := Some(("\\", 2));
      case '/' => r := Some(("/", 2));
      case 'u' => r := DecodeLiteral(i, end);
      case _ => r := None;
    }

    /** parse_hex4 */
    method ParseHex4(at: nat) returns (h: nat)
      requires at + 4 <= |content|
      ensures h == Hex4(content[at..at + 4])
    {
      h := 0;
      ghost var t := content[at..at + 4];
      for i := 0 to 4
        invariant forall k | 0 <= k < i :: HexValue(t[k]) >= 0
        invariant i == 1 ==> h == 16 * HexValue(t[0])
        invariant i == 2 ==> h == 16 * (16 * HexValue(t[0]) + HexValue(t[1]))
        invariant i == 3 ==> h == 16 * (16 * (16 * HexValue(t[0]) + HexValue(t[1])) + HexValue(t[2]))
        invariant i == 4 ==> h == 16 * (16 * (16 * HexValue(t[0]) + HexValue(t[1])) + HexValue(t[2])) + HexValue(t[3])
        invariant i == 0 ==> h == 0
      {
        var digit := HexValue(content[at + i]);
        assert content[at + i] == t[i];
        if digit < 0 {
          return 0;
        }
        h := h + digit;
        if i < 3 {
          h := h * 16;
        }
      }
    }

    /** utf16_literal_to_utf8 */
    method DecodeLiteral(i: nat, end: nat) returns (r: Option<(string, nat)>)
      requires i <= end <= |content|
      ensures r == Literal(content, i, end)
    {
      hide Hex4;
      if end - i < 6 {
        return None;
      }
      var first := ParseHex4(i + 2);
      if 0xdc00 <= first <= 0xdfff {
        return None;
      }
      var cp, length := first, 6;
      if 0xd800 <= first <= 0xdbff {
        if end - (i + 6) < 6 || content[i + 6] != '\\' || content[i + 7] != 'u' {
          return None;
        }
        var second := ParseHex4(i + 8);
        if second < 0xdc00 || second > 0xdfff {
          return None;
        }
        cp, length := 0x1_0000 + (first % 1024) * 1024 + second % 1024, 12;
      }
      var u := Encode(cp);
      return Some((u, length));
    }

    /** parse_string */
    method ParseString() returns (r: Result<string>)
      requires Valid()
      modifies this`offset
      ensures Valid() && r == ParseText(content, old(offset))
      ensures r.Parsed? ==> offset == r.off
    {
      hide CloseQuote, Decode, CString;
      if offset >= |content| || content[offset] != '\"' {
        return Failed;
      }
      var end := FindQuote(offset + 1);
      if end.None? {
        return Failed;
      }
      var bytes := Unescape(offset + 1, end.value);
      if bytes.None? {
        return Failed;
      }
      offset := end.value + 1;
      return Parsed(CString(bytes.value), offset);
    }

    /** parse_number, for the decimal integers of 32 bits */
    method ReadNumber() returns (r: Result<int>)
      requires Valid() && offset < |content|
      modifies this`offset
      ensures Valid() && r == ParseNumber(content, old(offset))
      ensures r.Parsed? ==> offset == r.off
    {
      var i := 0;
      while offset + i < |content| && NumberChar(content[offset + i])
        invariant offset + i <= |content| && RunEnd(content, offset + i) == RunEnd(content, offset)
        decreases |content| - offset - i
      {
        i := i + 1;
      }
      r := ParseNumber(content, offset);
      if r.Parsed? {
        offset := offset + i;
      }
    }

    /** parse_value */
    method ReadValue() returns (r: Result<Json>)
      requires Valid()
      modifies this
      ensures Valid() && r == ParseValue(content, old(offset), old(depth))
      ensures r.Parsed? ==> offset == r.off && depth == old(depth)
      decreases |content| - offset, 3
    {
      hide ParseText, ParseNumber, ParseArray, ParseObject;
      if Starts(content, offset, "null") {
        offset := offset + 4;
        return Parsed(Null, offset);
      }
      if Starts(content, offset, "false") {
        offset := offset + 5;
        return Parsed(False, offset);
      }
      if Starts(content, offset, "true") {
        offset := offset + 4;
        return Parsed(True, offset);
      }
      hide Starts;
      if offset < |content| && content[offset] == '\"' {
        var s := ParseString();
        return match s case Parsed(v, off) => Parsed(Text(v), off) case Failed => Failed case Beyond => Beyond;
      }
      if offset < |content| && (content[offset] == '-' || IsDigit(content[offset])) {
        var n := ReadNumber();
        return match n case Parsed(v, off) => Parsed(Number(v), off) case Failed => Failed case Beyond => Beyond;
      }
      if offset < |content| && content[offset] == '[' {
        r := ReadArray();
        return;
      }
      if offset < |content| && content[offset] == '{' {
        r := ReadObject();
        return;
      }
      return Failed;
    }

    // The element loop: each new element goes to the end of the list
    method ReadElements() returns (r: Result<Items>)
      requires Valid() && offset < |content|
      modifies this
      ensures Valid() && r == ParseItems(content, old(offset), old(depth))
      ensures r.Parsed? ==> offset == r.off && depth == old(depth)
      decreases |content| - offset, 1
    {
      hide ParseValue, ParseItems, Skip;
      var items, more := NoItem, true;
      AfterNothing(ParseItems(content, offset, depth));
      while more
        invariant offset <= |content| && old(offset) <= offset && depth == old(depth)
        invariant more ==> offset < |content|
        invariant more ==> After(items, ParseItems(content, offset, depth)) == ParseItems(content, old(offset), depth)
        invariant !more ==> ParseItems(content, old(offset), depth) == Parsed(items, offset)
        decreases |content| - offset, if more then 1 else 0
      {
        OneElement(content, offset, depth, items);
        offset := offset + 1;
        SkipWhitespace();
        var v := ReadValue();
        match v
        case Failed => return Failed;
        case Beyond => return Beyond;
        case Parsed(head, _) =>
          items := Joined(items, Item(head, NoItem));
          SkipWhitespace();
          more := offset < |content| && content[offset] == ',';
      }
      return Parsed(items, offset);
    }

    /** parse_array */
    method ReadArray() returns (r: Result<Json>)
      requires Valid() && offset < |content|
      modifies this
      ensures Valid() && r == ParseArray(content, old(offset), old(depth))
      ensures r.Parsed? ==> offset == r.off && depth == old(depth)
      decreases |content| - offset, 2
    {
      hide ParseItems, Skip;
      if depth >= NESTING_LIMIT {
        return Failed;
      }
      depth := depth + 1;
      offset := offset + 1;
      SkipWhitespace();
      var items := NoItem;
      if offset >= |content| {
        return Failed;
      }
      if content[offset] != ']' {
        offset := offset - 1;
        var elements := ReadElements();
        match elements
        case Failed => return Failed;
        case Beyond => return Beyond;
        case Parsed(all, _) => items := all;
        if offset >= |content| || content[offset] != ']' {
          return Failed;
        }
      }
      depth := depth - 1;
      offset := offset + 1;
      return Parsed(Array(items), offset);
    }

    // One member: its name, the colon and its value
    method ReadMember() returns (r: Result<(string, Json)>)
      requires Valid() && offset < |content|
      modifies this
      ensures Valid() && r == ParseMember(content, old(offset), old(depth))
      ensures r.Parsed? ==> offset == r.off && depth == old(depth) && old(offset) < offset
      decreases |content| - offset, 0
    {
      hide ParseValue, ParseText, Skip;
      if offset + 1 >= |content| {
        return Failed;
      }
      offset := offset + 1;
      SkipWhitespace();
      var key := ParseString();
      if !key.Parsed? {
        return if key.Failed? then Failed else Beyond;
      }
      SkipWhitespace();
      if offset >= |content| || content[offset] != ':' {
        return Failed;
      }
      offset := offset + 1;
      SkipWhitespace();
      var v := ReadValue();
      if !v.Parsed? {
        return if v.Failed? then Failed else Beyond;
      }
      SkipWhitespace();
      return Parsed((key.value, v.value), offset);
    }

    // The member loop
    method ReadMembers() returns (r: Result<Members>)
      requires Valid() && offset < |content|
      modifies this
      ensures Valid() && r == ParseMembers(content, old(offset), old(depth))
      ensures r.Parsed? ==> offset == r.off && depth == old(depth)
      decreases |content| - offset, 1
    {
      hide ParseMember, ParseMembers, Skip;
      var members, more := NoMember, true;
      AfterNoMember(ParseMembers(content, offset, depth));
      while more
        invariant offset <= |content| && old(offset) <= offset && depth == old(depth)
        invariant more ==> offset < |content|
        invariant more ==>
          AfterMembers(members, ParseMembers(content, offset, depth)) == ParseMembers(content, old(offset), depth)
        invariant !more ==> ParseMembers(content, old(offset), depth) == Parsed(members, offset)
        decreases |content| - offset, if more then 1 else 0
      {
        OneMember(content, offset, depth, members);
        var m := ReadMember();
        match m
        case Failed => return Failed;
        case Beyond => return Beyond;
        case Parsed((key, head), _) =>
          members := JoinedMembers(members, Member(key, head, NoMember));
          more := offset < |content| && content[offset] == ',';
      }
      return Parsed(members, offset);
    }

    /** parse_object */
    method ReadObject() returns (r: Result<Json>)
      requires Valid() && offset < |content|
      modifies this
      ensures Valid() && r == ParseObject(content, old(offset), old(depth))
      ensures r.Parsed? ==> offset == r.off && depth == old(depth)
      decreases |content| - offset, 2
    {
      hide ParseMembers, Skip;
      if depth >= NESTING_LIMIT {
        return Failed;
      }
      depth := depth + 1;
      offset := offset + 1;
      SkipWhitespace();
      var members := NoMember;
      if offset >= |content| {
        return Failed;
      }
      if content[offset] != '}' {
        offset := offset - 1;
        var entries := ReadMembers();
        match entries
        case Failed => return Failed;
        case Beyond => return Beyond;
        case Parsed(all, _) => members := all;
        if offset >= |content| || content[offset] != '}' {
          return Failed;
        }
      }
      depth := depth - 1;
      offset := offset + 1;
      return Parsed(Object(members), offset);
    }
  }

  /** cJSON_ParseWithLengthOpts */
  method ParseBytes(value: string, whole: bool) returns (r: Result<Json>)
    ensures r == Parse(value, whole)
  {
    hide ParseValue, Skip;
    if value == "" {
      return Failed;
    }
    var buffer := new ParseBuffer(value);
    buffer.offset := SkipBom(value);
    buffer.SkipWhitespace();
    r := buffer.ReadValue();
    if !r.Parsed? || !whole {
      return;
    }
    buffer.SkipWhitespace();
    if buffer.offset >= |value| || value[buffer.offset] as int != 0 {
      return Failed;
    }
    return Parsed(r.value, buffer.offset);
  }

  // A member as the member loop reads it, up to the character after the white space behind it
  function ParseMember(c: string, off: nat, depth: nat): Result<(string, Json)>
    requires off < |c|
  {
    if off + 1 >= |c| then Failed
    else
      match ParseText(c, Skip(c, off + 1))
      case Failed => Failed
      case Beyond => Beyond
      case Parsed(key, afterKey) =>
        var colon := Skip(c, afterKey);
        if colon >= |c| || c[colon] != ':' then Failed
        else
          match ParseValue(c, Skip(c, colon + 1), depth)
          case Failed => Failed
          case Beyond => Beyond
          case Parsed(head, next) => Parsed((key, head), Skip(c, next))
  }

  lemma AfterNothing(r: Result<Items>)
    ensures After(NoItem, r) == r
  {
  }

  lemma AfterNoMember(r: Result<Members>)
    ensures AfterMembers(NoMember, r) == r
  {
  }

  // One round of the member loop
  lemma OneMember(c: string, off: nat, depth: nat, done: Members)
    requires off < |c|
    ensures var m := ParseMember(c, off, depth);
            && (m.Failed? ==> AfterMembers(done, ParseMembers(c, off, depth)) == Failed)
            && (m.Beyond? ==> AfterMembers(done, ParseMembers(c, off, depth)) == Beyond)
            && (m.Parsed? ==>
                  var more := JoinedMembers(done, Member(m.value.0, m.value.1, NoMember));
                  && (m.off < |c| && c[m.off] == ',' ==>
                        AfterMembers(done, ParseMembers(c, off, depth))
                        == AfterMembers(more, ParseMembers(c, m.off, depth)))
                  && (!(m.off < |c| && c[m.off] == ',') ==>
                        AfterMembers(done, ParseMembers(c, off, depth)) == Parsed(more, m.off)))
  {
    hide ParseValue, ParseText, Skip;
    var m := ParseMember(c, off, depth);
    if m.Parsed? && m.off < |c| && c[m.off] == ',' {
      var rest := ParseMembers(c, m.off, depth);
      if rest.Parsed? {
        JoinedMember(done, m.value.0, m.value.1, rest.value);
      }
    }
  }

  // Bytes decoded so far in front of what is left to decode
  function Given(bytes: string, r: Option<string>): Option<string> {
    match r
    case None => None
    case Some(s) => Some(bytes + s)
  }

  lemma GivenNothing(r: Option<string>)
    ensures Given("", r) == r
  {
    if r.Some? {
      assert "" + r.value == r.value;
    }
  }

  lemma GivenEnd(bytes: string, c: string, i: nat, end: nat)
    requires end <= i && end < |c|
    ensures Given(bytes, Decode(c, i, end)) == Some(bytes)
  {
    assert bytes + "" == bytes;
  }

  lemma NoEscape(c: string, i: nat, end: nat)
    requires i < end < |c| && c[i] == '\\' && Escape(c, i, end).None?
    ensures Decode(c, i, end).None?
  {
    hide Escape;
  }

  lemma GivenStep(c: string, i: nat, end: nat, bytes: string, piece: string, n: nat)
    requires i < end < |c| && n > 0
    requires if c[i] != '\\' then piece == [c[i]] && n == 1 else Escape(c, i, end) == Some((piece, n))
    ensures Given(bytes, Decode(c, i, end)) == Given(bytes + piece, Decode(c, i + n, end))
  {
    hide Escape;
    var rest := Decode(c, i + n, end);
    if rest.Some? {
      assert bytes + (piece + rest.value) == bytes + piece + rest.value;
    }
  }
}
