/** Text at an offset of a buffer, and the parser's first steps over it. */
module JsonText {
  import opened JsonTree
  import opened JsonParse

  // s stands at offset p of the buffer.
  predicate Stands(c: string, p: nat, s: string) {
    p + |s| <= |c| && c[p..p + |s|] == s
  }

  lemma StandsSplit(c: string, p: nat, a: string, b: string)
    ensures Stands(c, p, a + b) <==> Stands(c, p, a) && Stands(c, p + |a|, b)
  {
    if p + |a| + |b| <= |c| {
      var w := c[p..p + |a| + |b|];
      assert w[..|a|] == c[p..p + |a|] && w[|a|..] == c[p + |a|..p + |a| + |b|];
      assert w == w[..|a|] + w[|a|..];
    }
  }

  lemma StandsChar(c: string, p: nat, s: string, i: nat)
    requires Stands(c, p, s) && i < |s|
    ensures c[p + i] == s[i]
  {
    assert c[p..p + |s|][i] == s[i];
  }

  predicate Blank(c: string, from: nat, to: nat)
    requires to <= |c|
  {
    forall i | from <= i < to :: c[i] as int <= 32
  }

  lemma {:induction false} InkAt(c: string, i: nat, z: nat)
    requires i <= z < |c| && Blank(c, i, z) && c[z] as int > 32
    ensures FirstInk(c, i) == z
    decreases z - i
  {
    if i < z {
      InkAt(c, i + 1, z);
    }
  }

  lemma SkipTo(c: string, off: nat, z: nat)
    requires off <= z < |c| && Blank(c, off, z) && c[z] as int > 32
    ensures Skip(c, off) == z
  {
    InkAt(c, off, z);
  }

  lemma OneDigit(d: nat)
    requires d < 10
    ensures IsDigit(Digit(d)) && DigitValue(Digit(d)) == d
  {
  }

  lemma {:induction false} RunTo(c: string, i: nat, z: nat)
    requires i <= z < |c| && !NumberChar(c[z]) && forall k | i <= k < z :: NumberChar(c[k])
    ensures RunEnd(c, i) == z
    decreases z - i
  {
    if i < z {
      RunTo(c, i + 1, z);
    }
  }

  lemma StandsAt(c: string, p: nat, s: string)
    requires Stands(c, p, s)
    ensures p + |s| <= |c| && c[p..p + |s|] == s
  {
  }

  lemma NumberStep(c: string, p: nat, end: nat, t: string, v: int)
    requires p < end <= |c| && RunEnd(c, p) == end && c[p..end] == t
    requires var minus := t != "" && t[0] == '-';
             var digits := if minus then t[1..] else t;
             AllDigits(digits) && v == if minus then 0 - ValueOf(digits) else ValueOf(digits)
    requires -0x8000_0000 <= v <= 0x7fff_ffff
    ensures ParseNumber(c, p) == Parsed(v, end)
  {
    hide RunEnd, AllDigits, ValueOf;
  }

  lemma HexPlain(d: nat)
    requires d < 16
    ensures HexDigit(d) != '\"' && HexDigit(d) != '\\' && HexValue(HexDigit(d)) == d
  {
  }

  lemma EscapeHead(s: string)
    requires s != ""
    ensures EscapeText(s) == EscapeChar(s[0]) + EscapeText(s[1..])
  {
  }

  lemma BytesHead(s: string)
    requires s != "" && Bytes8(s)
    ensures 0 < s[0] as int < 256 && Bytes8(s[1..]) && [s[0]] + s[1..] == s
  {
  }

  lemma AllOfIt(s: string)
    requires Bytes8(s)
    ensures CString(s) == s
  {
    assert s[..|s|] == s;
  }

  lemma WordStarts(c: string, p: nat)
    requires p < |c|
    ensures Starts(c, p, "null") ==> c[p] == 'n'
    ensures Starts(c, p, "false") ==> c[p] == 'f'
    ensures Starts(c, p, "true") ==> c[p] == 't'
  {
    if Starts(c, p, "null") {
      assert c[p..p + 4][0] == 'n';
    }
    if Starts(c, p, "false") {
      assert c[p..p + 5][0] == 'f';
    }
    if Starts(c, p, "true") {
      assert c[p..p + 4][0] == 't';
    }
  }

  // What parse_value does with a first character that is no keyword's
  lemma ValueBy(c: string, p: nat, depth: nat)
    requires p < |c| && c[p] != 'n' && c[p] != 'f' && c[p] != 't'
    ensures c[p] == '"' && ParseText(c, p).Parsed? ==>
              ParseValue(c, p, depth) == Parsed(Text(ParseText(c, p).value), ParseText(c, p).off)
    ensures (c[p] == '-' || IsDigit(c[p])) && ParseNumber(c, p).Parsed? ==>
              ParseValue(c, p, depth) == Parsed(Number(ParseNumber(c, p).value), ParseNumber(c, p).off)
    ensures c[p] == '[' ==> ParseValue(c, p, depth) == ParseArray(c, p, depth)
    ensures c[p] == '{' ==> ParseValue(c, p, depth) == ParseObject(c, p, depth)
  {
    WordStarts(c, p);
    hide ParseArray, ParseObject, ParseText, ParseNumber, Starts;
  }

  lemma BlankText(c: string, p: nat, s: string)
    requires Stands(c, p, s) && forall i | 0 <= i < |s| :: s[i] as int <= 32
    ensures p + |s| <= |c| && Blank(c, p, p + |s|)
  {
    forall i | p <= i < p + |s|
      ensures c[i] as int <= 32
    {
      StandsChar(c, p, s, i - p);
    }
  }

  lemma StandsBound(c: string, p: nat, s: string)
    requires Stands(c, p, s)
    ensures p + |s| <= |c|
  {
  }

  lemma BlankNone(c: string, p: nat)
    requires p <= |c|
    ensures Blank(c, p, p)
  {
  }

  lemma ObjectStep(c: string, p: nat, depth: nat, ms: Members, from: nat, end: nat)
    requires p < from < |c| && depth < NESTING_LIMIT && Skip(c, p + 1) == from
    requires c[from] == '}' ==> ms == NoMember && end == from
    requires c[from] != '}' ==> ParseMembers(c, from - 1, depth + 1) == Parsed(ms, end) && end < |c| && c[end] == '}'
    ensures ParseObject(c, p, depth) == Parsed(Object(ms), end + 1)
  {
    hide ParseMembers, Skip;
  }

  lemma NoBom(c: string)
    requires c != "" && c[0] as int < 128
    ensures SkipBom(c) == 0
  {
    if |c| > 4 {
      assert c[..3][0] == c[0];
    }
  }

  lemma ItemsShape(items: Items, format: bool, depth: nat)
    requires items.Item?
    ensures RenderItems(items, format, depth)
         == Render(items.head, format, depth)
            + (if items.next.Item? then Comma(format) + RenderItems(items.next, format, depth) else "")
  {
  }
}
