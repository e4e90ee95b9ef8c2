/** Parsing what was printed gives the tree back. */
module JsonRound {
  import opened Basics
  import opened JsonTree
  import opened JsonParse
  import opened JsonText
  import opened JsonGrammar
  import opened JsonAccepts
  import opened JsonLayout

  lemma DigitsOk(v: int)
    requires -0x8000_0000 <= v <= 0x7fff_ffff
    ensures CountOk(v < 0, Digits(Size(v))) && CountOf(v < 0, Digits(Size(v))) == v
    ensures Written(Count(v < 0, Digits(Size(v)))) == Decimal(v)
  {
    hide *;
    CountWritten(v);
    DocCases(Count(v < 0, Digits(Size(v))));
    CountTree(v < 0, Digits(Size(v)));
  }

  lemma CountTree(minus: bool, digits: string)
    requires DocOk(Count(minus, digits))
    ensures TreeOf(Count(minus, digits)) == Number(CountOf(minus, digits))
  {
    hide CountOk, CountOf;
  }

  lemma NumberRound(c: string, p: nat, v: int)
    requires -0x8000_0000 <= v <= 0x7fff_ffff
    requires Stands(c, p, Decimal(v)) && p + |Decimal(v)| < |c| && !NumberChar(c[p + |Decimal(v)|])
    ensures ParseNumber(c, p) == Parsed(v, p + |Decimal(v)|)
  {
    hide *;
    DigitsOk(v);
    CountAccepted(c, p, v < 0, Digits(Size(v)));
  }

  lemma TextRound(c: string, p: nat, s: string)
    requires Bytes8(s) && Stands(c, p, Quoted(s))
    ensures ParseText(c, p) == Parsed(s, p + |Quoted(s)|)
  {
    hide *;
    StrWritten(s);
    TextAccepted(c, p, StrFor(s));
  }

  lemma ValueRound(c: string, p: nat, j: Json, format: bool, depth: nat)
    requires Plain(j) && Fits(j, depth)
    requires var s := Render(j, format, depth);
             Stands(c, p, s) && p + |s| < |c| && !NumberChar(c[p + |s|])
    ensures ParseValue(c, p, depth) == Parsed(j, p + |Render(j, format, depth)|)
  {
    hide *;
    var d := DocFor(j, format, depth);
    ValuePrinted(j, format, depth);
    PrintedIs(d, j, format, depth);
    DocAccepted(c, p, d, depth);
  }

  // The first character of a printed value is never white space.
  lemma PrintedStarts(j: Json, format: bool)
    requires Plain(j)
    ensures Render(j, format, 0) != "" && Starting(Render(j, format, 0)[0])
  {
    hide *;
    var d := DocFor(j, format, 0);
    ValuePrinted(j, format, 0);
    PrintedIs(d, j, format, 0);
    WrittenStarts(d);
  }

  lemma Ends(text: string)
    requires text != "" && Starting(text[0])
    ensures var c := text + [0 as char];
            && Stands(c, 0, text) && c[|text|] as int == 0 && !NumberChar(c[|text|])
            && SkipBom(c) == 0 && Skip(c, 0) == 0 && Skip(c, |text|) == |text|
  {
    var c := text + [0 as char];
    assert c[0..|text|] == text;
    assert c[0] == text[0];
    NoBom(c);
    SkipTo(c, 0, 0);
    assert FirstInk(c, |text|) == FirstInk(c, |c|) == |c|;
  }

  lemma ParsesAt(c: string, whole: bool, j: Json, n: nat)
    requires c != "" && SkipBom(c) == 0 && Skip(c, 0) == 0 && ParseValue(c, 0, 0) == Parsed(j, n)
    requires n < |c| && c[n] as int == 0 && Skip(c, n) == n
    ensures Parse(c, whole) == Parsed(j, n)
  {
    hide ParseValue, Skip, SkipBom;
  }

  /** Print, then parse the C string with its terminator: the same tree, to the
      last character, whether or not the whole text has to be one value. */
  lemma PrintThenParse(j: Json, format: bool, whole: bool)
    requires Plain(j) && Print(j, format, 0).Some?
    ensures var text := Print(j, format, 0).value;
            Parse(text + [0 as char], whole) == Parsed(j, |text|)
  {
    hide *;
    PrintIs(j, format);
    var text := Render(j, format, 0);
    PrintedStarts(j, format);
    Ends(text);
    ValueRound(text + [0 as char], 0, j, format, 0);
    ParsesAt(text + [0 as char], whole, j, |text|);
  }

  lemma PrintIs(j: Json, format: bool)
    ensures Print(j, format, 0) == if Fits(j, 0) then Some(Render(j, format, 0)) else None
  {
    hide Fits, Render;
  }
}
