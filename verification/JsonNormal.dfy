/** What the parser accepts can be printed, and printing it settles it. */
module JsonNormal {
  import opened Basics
  import opened JsonTree
  import opened JsonParse
  import opened JsonText
  import opened JsonRound

  // ---- strings of bytes

  predicate AllBytes(c: string) {
    forall i | 0 <= i < |c| :: c[i] as int < 256
  }

  lemma LiteralBytes(c: string, i: nat, end: nat)
    requires i <= end <= |c| && Literal(c, i, end).Some?
    ensures AllBytes(Literal(c, i, end).value.0)
  {
    hide Hex4;
  }

  lemma EscapeBytes(c: string, i: nat, end: nat)
    requires i < end < |c| && Escape(c, i, end).Some?
    ensures AllBytes(Escape(c, i, end).value.0)
  {
    hide Literal;
    if c[i + 1] == 'u' {
      LiteralBytes(c, i, end);
    }
  }

  lemma {:induction false} DecodeBytes(c: string, i: nat, end: nat)
    requires AllBytes(c) && end < |c| && Decode(c, i, end).Some?
    ensures AllBytes(Decode(c, i, end).value)
    decreases end - i
  {
    hide Escape;
    if i < end {
      if c[i] != '\\' {
        DecodeBytes(c, i + 1, end);
      } else {
        EscapeBytes(c, i, end);
        DecodeBytes(c, i + Escape(c, i, end).value.1, end);
      }
    }
  }

  lemma TextPlain(c: string, off: nat)
    requires AllBytes(c) && off <= |c| && ParseText(c, off).Parsed?
    ensures Bytes8(ParseText(c, off).value)
  {
    hide CloseQuote, Decode, CString;
    var end := CloseQuote(c, off + 1).value;
    DecodeBytes(c, off + 1, end);
    var s := Decode(c, off + 1, end).value;
    var r := CString(s);
    assert forall i | 0 <= i < |r| :: r[i] == s[i] && r[i] as int != 0;
  }

  // ---- what the parser makes of a buffer of bytes

  // A tree of byte strings and 32-bit integers that is not nested too deep
  predicate Good(j: Json, depth: nat) {
    Plain(j) && Fits(j, depth)
  }

  lemma ScalarGood(c: string, off: nat, depth: nat)
    requires AllBytes(c) && off < |c| && ParseValue(c, off, depth).Parsed? && c[off] != '[' && c[off] != '{'
    ensures Good(ParseValue(c, off, depth).value, depth)
  {
    hide ParseArray, ParseObject, ParseText, Starts;
    if c[off] == '\"' && ParseText(c, off).Parsed? {
      TextPlain(c, off);
    }
  }

  lemma {:induction false} ValueGood(c: string, off: nat, depth: nat)
    requires AllBytes(c) && off <= |c| && ParseValue(c, off, depth).Parsed?
    ensures Good(ParseValue(c, off, depth).value, depth)
    decreases |c| - off, 2
  {
    hide ParseArray, ParseObject, ParseText, ParseNumber, Good;
    if off < |c| && c[off] == '[' {
      ValueBy(c, off, depth);
      ArrayGood(c, off, depth);
    } else if off < |c| && c[off] == '{' {
      ValueBy(c, off, depth);
      ObjectGood(c, off, depth);
    } else if off < |c| {
      ScalarGood(c, off, depth);
    }
  }

  lemma ArrayGood(c: string, off: nat, depth: nat)
    requires AllBytes(c) && off < |c| && ParseArray(c, off, depth).Parsed?
    ensures Good(ParseArray(c, off, depth).value, depth)
    decreases |c| - off, 1
  {
    hide ParseItems, Skip;
    assert ItemsPlain(NoItem) && ItemsFit(NoItem, depth + 1);
    var first := Skip(c, off + 1);
    if first < |c| && c[first] != ']' {
      ItemsGood(c, first - 1, depth + 1);
    }
  }

  lemma {:induction false} ItemsGood(c: string, off: nat, depth: nat)
    requires AllBytes(c) && off < |c| && ParseItems(c, off, depth).Parsed?
    ensures var items := ParseItems(c, off, depth).value; ItemsPlain(items) && ItemsFit(items, depth)
    decreases |c| - off, 0
  {
    hide ParseValue, Skip;
    var at := Skip(c, off + 1);
    ValueGood(c, at, depth);
    var end := Skip(c, ParseValue(c, at, depth).off);
    if end < |c| && c[end] == ',' {
      ItemsGood(c, end, depth);
    }
  }

  lemma ObjectGood(c: string, off: nat, depth: nat)
    requires AllBytes(c) && off < |c| && ParseObject(c, off, depth).Parsed?
    ensures Good(ParseObject(c, off, depth).value, depth)
    decreases |c| - off, 1
  {
    hide ParseMembers, Skip;
    assert MembersPlain(NoMember) && MembersFit(NoMember, depth + 1);
    var first := Skip(c, off + 1);
    if first < |c| && c[first] != '}' {
      MembersGood(c, first - 1, depth + 1);
    }
  }

  lemma {:induction false} MembersGood(c: string, off: nat, depth: nat)
    requires AllBytes(c) && off < |c| && ParseMembers(c, off, depth).Parsed?
    ensures var ms := ParseMembers(c, off, depth).value; MembersPlain(ms) && MembersFit(ms, depth)
    decreases |c| - off, 0
  {
    hide ParseValue, ParseText, Skip, Bytes8;
    var from := Skip(c, off + 1);
    TextPlain(c, from);
    var at := Skip(c, Skip(c, ParseText(c, from).off) + 1);
    ValueGood(c, at, depth);
    var end := Skip(c, ParseValue(c, at, depth).off);
    if end < |c| && c[end] == ',' {
      MembersGood(c, end, depth);
    }
  }

  /** Whatever is parsed from a buffer of bytes prints, and the printed text
      parses to that very tree. */
  lemma ParsePrintParse(c: string, whole: bool, format: bool)
    requires AllBytes(c) && Parse(c, whole).Parsed?
    ensures var j := Parse(c, whole).value;
            Print(j, format, 0).Some?
            && var text := Print(j, format, 0).value; Parse(text + [0 as char], true) == Parsed(j, |text|)
  {
    ValueGood(c, Skip(c, SkipBom(c)), 0);
    PrintThenParse(Parse(c, whole).value, format, true);
  }
}
