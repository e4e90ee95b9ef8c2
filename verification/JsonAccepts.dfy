/** Every text of the grammar parses to the tree it stands for. */
module JsonAccepts {
  import opened Basics
  import opened JsonTree
  import opened JsonParse
  import opened JsonGrammar
  import opened JsonText

  // ---- digits of an escape

  lemma NibbleIs(c: char)
    ensures HexValue(c) == Nibble(c)
  {
  }

  lemma HexIs(t: string)
    requires |t| == 4
    ensures Hex4(t) == HexNumber(t)
  {
    NibbleIs(t[0]);
    NibbleIs(t[1]);
    NibbleIs(t[2]);
    NibbleIs(t[3]);
    hide HexValue, Nibble;
  }

  lemma PairIs(high: nat, low: nat)
    requires 0xd800 <= high <= 0xdbff && 0xdc00 <= low <= 0xdfff
    ensures 0x1_0000 + (high % 1024) * 1024 + low % 1024 == PairValue(high, low)
  {
  }

  lemma EscapeText4(c: string, i: nat, hex: string)
    requires |hex| == 4 && Stands(c, i, "\\u" + hex)
    ensures i + 6 <= |c| && c[i] == '\\' && c[i + 1] == 'u' && c[i + 2..i + 6] == hex
  {
    var s := "\\u" + hex;
    StandsChar(c, i, s, 0);
    StandsChar(c, i, s, 1);
    assert c[i..i + 6] == s;
    assert c[i..i + 6][2..] == c[i + 2..i + 6];
    assert s[2..] == hex;
  }

  lemma EscapedBack(c: string, i: nat, end: nat, hex: string)
    requires PieceOk(Escaped(hex)) && i + 6 <= end < |c| && c[i + 1] == 'u' && c[i + 2..i + 6] == hex
    ensures Escape(c, i, end) == Some((Utf8(HexNumber(hex)), 6))
  {
    HexIs(hex);
    hide Hex4, HexNumber, Utf8;
  }

  // What a piece is read as
  lemma PieceBack(c: string, i: nat, end: nat, p: Piece)
    requires PieceOk(p) && Stands(c, i, PieceText(p)) && i < end < |c|
    requires i + |PieceText(p)| <= end || p.Short?
    ensures p.Raw? ==> c[i] != '\\' && PieceBytes(p) == [c[i]]
    ensures !p.Raw? ==> c[i] == '\\' && Escape(c, i, end) == Some((PieceBytes(p), |PieceText(p)|))
  {
    hide Escape, HexNumber, Utf8, Stands;
    match p
    case Raw(ch) => StandsChar(c, i, [ch], 0);
    case Short(letter) =>
      StandsBound(c, i, "\\" + [letter]);
      StandsChar(c, i, "\\" + [letter], 0);
      StandsChar(c, i, "\\" + [letter], 1);
      ShortBack(c, i, end, letter);
    case Escaped(hex) =>
      EscapeText4(c, i, hex);
      EscapedBack(c, i, end, hex);
    case Pair(high, low) =>
      assert PieceText(p) == ("\\u" + high) + ("\\u" + low);
      StandsSplit(c, i, "\\u" + high, "\\u" + low);
      EscapeText4(c, i, high);
      EscapeText4(c, i + 6, low);
      PairBack(c, i, end, high, low);
  }

  lemma ShortBack(c: string, i: nat, end: nat, letter: char)
    requires i < end < |c| && i + 1 < |c| && c[i + 1] == letter && letter in LETTERS
    ensures Escape(c, i, end) == Some(([ShortFor(letter)], 2))
  {
  }

  // The decoder's view of a pair, by its two numbers
  lemma PairLiteral(c: string, i: nat, end: nat)
    requires i + 12 <= end < |c| && c[i + 6] == '\\' && c[i + 7] == 'u'
    requires 0xd800 <= Hex4(c[i + 2..i + 6]) <= 0xdbff && 0xdc00 <= Hex4(c[i + 8..i + 12]) <= 0xdfff
    ensures var high, low := Hex4(c[i + 2..i + 6]), Hex4(c[i + 8..i + 12]);
            PairValue(high, low) <= 0x10_ffff && Literal(c, i, end) == Some((Utf8(PairValue(high, low)), 12))
  {
    hide Hex4, Utf8, PairValue;
    PairIs(Hex4(c[i + 2..i + 6]), Hex4(c[i + 8..i + 12]));
  }

  lemma EscapeIsLiteral(c: string, i: nat, end: nat)
    requires i < end < |c| && c[i + 1] == 'u'
    ensures Escape(c, i, end) == Literal(c, i, end)
  {
    hide Literal;
  }

  lemma PairBack(c: string, i: nat, end: nat, high: string, low: string)
    requires i + 12 <= end < |c| && |high| == |low| == 4 && c[i + 2..i + 6] == high && c[i + 8..i + 12] == low
    requires c[i + 1] == 'u' && c[i + 6] == '\\' && c[i + 7] == 'u'
    requires 0xd800 <= HexNumber(high) <= 0xdbff && 0xdc00 <= HexNumber(low) <= 0xdfff
    ensures Escape(c, i, end) == Some((Utf8(PairValue(HexNumber(high), HexNumber(low))), 12))
  {
    hide *;
    HexIs(high);
    HexIs(low);
    EscapeIsLiteral(c, i, end);
    PairLiteral(c, i, end);
  }

  // ---- strings

  lemma {:induction false} ScannedClose(c: string, i: nat, t: string)
    requires Scanned(t) && Stands(c, i, t) && i + |t| < |c| && c[i + |t|] == '\"'
    ensures CloseQuote(c, i) == Some(i + |t|)
    decreases |t|
  {
    hide Stands;
    if t != "" {
      StandsChar(c, i, t, 0);
      var n := if t[0] == '\\' then 2 else 1;
      assert t == t[..n] + t[n..];
      StandsSplit(c, i, t[..n], t[n..]);
      ScannedClose(c, i + n, t[n..]);
    }
  }

  lemma DecodeBy(c: string, i: nat, end: nat, bytes: string, n: nat, rest: string)
    requires i < end < |c| && n > 0 && Decode(c, i + n, end) == Some(rest)
    requires c[i] != '\\' ==> bytes == [c[i]] && n == 1
    requires c[i] == '\\' ==> Escape(c, i, end) == Some((bytes, n))
    ensures Decode(c, i, end) == Some(bytes + rest)
  {
    hide Escape;
  }

  predicate Last(ps: seq<Piece>) {
    ps != [] && ps[|ps| - 1] == Short('\"')
  }

  lemma HeadFits(ps: seq<Piece>, room: nat)
    requires ps != [] && (|PiecesText(ps)| == room || (|PiecesText(ps)| == room + 1 && Last(ps)))
    ensures room > 0
    ensures |PieceText(ps[0])| <= room || ps[0].Short?
    ensures var (rest, k) := (ps[1..], |PieceText(ps[0])|);
            if k <= room then |PiecesText(rest)| == room - k || (|PiecesText(rest)| == room - k + 1 && Last(rest))
            else rest == []
  {
    hide PieceText;
    var rest := ps[1..];
    assert PiecesText(ps) == PieceText(ps[0]) + PiecesText(rest);
    if rest == [] {
      assert PiecesText(rest) == "";
      LastText();
    } else {
      assert rest[|rest| - 1] == ps[|ps| - 1];
      if Last(ps) {
        LastLong(rest);
      }
    }
  }

  lemma LastText()
    ensures |PieceText(Short('\"'))| == 2
  {
  }

  lemma {:induction false} LastLong(ps: seq<Piece>)
    requires Last(ps)
    ensures |PiecesText(ps)| >= 2
  {
    hide PieceText;
    LastText();
    assert PiecesText(ps) == PieceText(ps[0]) + PiecesText(ps[1..]);
    if |ps| > 1 {
      assert ps[1..][|ps| - 2] == ps[|ps| - 1];
      LastLong(ps[1..]);
    } else {
      assert ps[1..] == [];
    }
  }

  lemma {:induction false} DecodePieces(c: string, i: nat, end: nat, ps: seq<Piece>)
    requires PiecesOk(ps) && Stands(c, i, PiecesText(ps)) && i <= end < |c|
    requires |PiecesText(ps)| == end - i || (|PiecesText(ps)| == end - i + 1 && Last(ps))
    ensures Decode(c, i, end) == Some(PiecesBytes(ps))
    decreases |ps|
  {
    hide Stands, PieceText, PieceBytes, PieceOk, Escape, Last;
    if ps == [] {
    } else {
      var p, rest := ps[0], ps[1..];
      var n := |PieceText(p)|;
      HeadFits(ps, end - i);
      StandsSplit(c, i, PieceText(p), PiecesText(rest));
      PieceBack(c, i, end, p);
      RawOne(p);
      if i + n <= end {
        DecodePieces(c, i + n, end, rest);
      } else {
        assert Decode(c, i + n, end) == Some("");
      }
      DecodeBy(c, i, end, PieceBytes(p), n, PiecesBytes(rest));
    }
  }

  lemma RawOne(p: Piece)
    ensures p.Raw? ==> |PieceText(p)| == 1
  {
  }

  lemma StrParts(c: string, p: nat, s: Str)
    requires Stands(c, p, StrText(s))
    ensures var n := |s.content|;
            && p + n + 2 <= |c| && c[p] == '\"' && c[p + 1 + n] == '\"' && Stands(c, p + 1, s.content)
            && Stands(c, p + 1, s.content + "\"")
  {
    hide Stands;
    var t := s.content;
    assert StrText(s) == "\"" + (t + "\"");
    StandsSplit(c, p, "\"", t + "\"");
    StandsSplit(c, p + 1, t, "\"");
    StandsChar(c, p, "\"", 0);
    StandsChar(c, p + 1 + |t|, "\"", 0);
    StandsBound(c, p, StrText(s));
  }

  lemma StrFacts(s: Str)
    requires StrOk(s)
    ensures PiecesOk(s.pieces) && Scanned(s.content) && StrValue(s) == CString(PiecesBytes(s.pieces))
    ensures PiecesText(s.pieces) == s.content || (PiecesText(s.pieces) == s.content + "\"" && Last(s.pieces))
  {
    hide PieceOk, Scanned, PiecesText, PiecesBytes, CString;
  }

  lemma TextAccepted(c: string, p: nat, s: Str)
    requires StrOk(s) && Stands(c, p, StrText(s))
    ensures ParseText(c, p) == Parsed(StrValue(s), p + |StrText(s)|)
  {
    hide *;
    var end := p + 1 + |s.content|;
    StrParts(c, p, s);
    StrFacts(s);
    ScannedClose(c, p + 1, s.content);
    DecodePieces(c, p + 1, end, s.pieces);
    TextBy(c, p, end, PiecesBytes(s.pieces));
    StrLong(s);
  }

  lemma StrLong(s: Str)
    ensures |StrText(s)| == |s.content| + 2
  {
  }

  lemma TextBy(c: string, p: nat, end: nat, bytes: string)
    requires p < |c| && c[p] == '\"' && CloseQuote(c, p + 1) == Some(end) && Decode(c, p + 1, end) == Some(bytes)
    ensures ParseText(c, p) == Parsed(CString(bytes), end + 1)
  {
    hide CloseQuote, Decode, CString;
  }

  // ---- numbers

  lemma {:induction false} DigitsValueIs(t: string)
    requires forall i | 0 <= i < |t| :: '0' <= t[i] <= '9'
    ensures ValueOf(t) == DigitsValue(t)
  {
    if t != "" {
      DigitsValueIs(t[..|t| - 1]);
    }
  }

  lemma CountValue(minus: bool, digits: string)
    requires CountOk(minus, digits)
    ensures var t := Written(Count(minus, digits));
            var sign := t != "" && t[0] == '-';
            var rest := if sign then t[1..] else t;
            AllDigits(rest) && CountOf(minus, digits) == if sign then 0 - ValueOf(rest) else ValueOf(rest)
    ensures -0x8000_0000 <= CountOf(minus, digits) <= 0x7fff_ffff
  {
    DigitsValueIs(digits);
    hide ValueOf, DigitsValue;
    var t := Written(Count(minus, digits));
    if minus {
      assert t[1..] == digits;
    } else {
      assert t == digits;
      assert t[0] != '-';
    }
  }

  lemma CountChars(minus: bool, digits: string)
    requires CountOk(minus, digits)
    ensures var t := Written(Count(minus, digits));
            t != "" && (t[0] == '-' || IsDigit(t[0])) && forall i | 0 <= i < |t| :: NumberChar(t[i])
  {
    hide CountOf;
  }

  lemma CountAccepted(c: string, p: nat, minus: bool, digits: string)
    requires CountOk(minus, digits)
    requires var s := Written(Count(minus, digits)); Stands(c, p, s) && p + |s| < |c| && !NumberChar(c[p + |s|])
    ensures ParseNumber(c, p) == Parsed(CountOf(minus, digits), p + |Written(Count(minus, digits))|)
    ensures c[p] == '-' || IsDigit(c[p])
  {
    hide *;
    var s := Written(Count(minus, digits));
    CountChars(minus, digits);
    CountValue(minus, digits);
    forall k | p <= k < p + |s|
      ensures NumberChar(c[k])
    {
      StandsChar(c, p, s, k - p);
    }
    StandsChar(c, p, s, 0);
    RunTo(c, p, p + |s|);
    StandsAt(c, p, s);
    NumberStep(c, p, p + |s|, s, CountOf(minus, digits));
  }

  // ---- values

  predicate Starting(ch: char) {
    32 < ch as int < 128 && ch != ']' && ch != '}'
  }

  lemma WrittenStarts(d: Doc)
    requires DocOk(d)
    ensures Written(d) != "" && Starting(Written(d)[0])
  {
  }

  lemma WordAccepted(c: string, p: nat, d: Doc, depth: nat)
    requires (d.Nothing? || d.No? || d.Yes?) && Stands(c, p, Written(d))
    ensures ParseValue(c, p, depth) == Parsed(TreeOf(d), p + |Written(d)|)
  {
    StandsChar(c, p, Written(d), 0);
    WordStarts(c, p);
    hide ParseArray, ParseObject, ParseText, ParseNumber;
  }

  lemma ScalarAccepted(c: string, p: nat, d: Doc, depth: nat)
    requires DocOk(d) && !d.List? && !d.Record?
    requires Stands(c, p, Written(d)) && p + |Written(d)| < |c| && !NumberChar(c[p + |Written(d)|])
    ensures ParseValue(c, p, depth) == Parsed(TreeOf(d), p + |Written(d)|)
  {
    hide ParseValue, ParseText, ParseNumber, StrText, StrOk, CountOk, CountOf, StrValue, NumberChar, Stands;
    match d
    case Count(minus, digits) =>
      CountAccepted(c, p, minus, digits);
      DigitFirst(c[p]);
      ValueBy(c, p, depth);
    case Words(s) =>
      TextAccepted(c, p, s);
      StrParts(c, p, s);
      ValueBy(c, p, depth);
    case _ => WordAccepted(c, p, d, depth);
  }

  lemma DigitFirst(ch: char)
    requires ch == '-' || IsDigit(ch)
    ensures ch != 'n' && ch != 'f' && ch != 't' && ch != '\"'
  {
  }

  lemma SkipBlanks(c: string, p: nat, s: string)
    requires Stands(c, p, s) && Blanks(s) && p + |s| < |c| && c[p + |s|] as int > 32
    ensures Skip(c, p) == p + |s|
  {
    BlankText(c, p, s);
    SkipTo(c, p, p + |s|);
  }

  lemma BlanksEnd(c: string, p: nat, s: string)
    requires Stands(c, p, s) && Blanks(s) && p + |s| < |c| && c[p + |s|] as int > 32 && !NumberChar(c[p + |s|])
    ensures p < |c| && !NumberChar(c[p])
  {
    if s != "" {
      StandsChar(c, p, s, 0);
    }
  }

  // What follows an element
  function ElementTail(es: Elements): string
    requires es.Element?
  {
    if es.next.Element? then "," + (es.next.before + ElementsText(es.next)) else ""
  }

  lemma ElementChain(c: string, p: nat, es: Elements)
    requires es.Element? && Stands(c, p, ElementsText(es))
    ensures var q := p + |Written(es.head)|;
            var z := q + |es.after|;
            && Stands(c, p, Written(es.head)) && Stands(c, q, es.after) && Stands(c, z, ElementTail(es))
            && p + |ElementsText(es)| == z + |ElementTail(es)| <= |c|
  {
    hide Stands, Written;
    StandsBound(c, p, ElementsText(es));
    StandsSplit(c, p, Written(es.head), es.after + ElementTail(es));
    StandsSplit(c, p + |Written(es.head)|, es.after, ElementTail(es));
  }

  lemma NextElement(c: string, z: nat, es: Elements)
    requires es.Element? && es.next.Element? && Stands(c, z, ElementTail(es))
    ensures z < |c| && c[z] == ',' && Stands(c, z + 1, es.next.before)
    ensures Stands(c, z + 1 + |es.next.before|, ElementsText(es.next))
    ensures |ElementTail(es)| == 1 + |es.next.before| + |ElementsText(es.next)|
  {
    hide Stands, ElementsText;
    StandsSplit(c, z, ",", es.next.before + ElementsText(es.next));
    StandsSplit(c, z + 1, es.next.before, ElementsText(es.next));
    StandsBound(c, z, ",");
    StandsChar(c, z, ",", 0);
  }

  lemma ElementsFacts(es: Elements, depth: nat)
    requires es.Element? && ElementsOk(es) && ItemsFit(ItemsOf(es), depth)
    ensures Blanks(es.before) && DocOk(es.head) && Blanks(es.after) && ElementsOk(es.next)
    ensures Fits(TreeOf(es.head), depth) && ItemsFit(ItemsOf(es.next), depth)
    ensures ItemsOf(es) == Item(TreeOf(es.head), ItemsOf(es.next))
  {
    hide DocOk, Fits, TreeOf, Blanks;
  }

  lemma StartsHere(c: string, p: nat, d: Doc)
    requires DocOk(d) && Stands(c, p, Written(d))
    ensures p < |c| && Starting(c[p])
  {
    hide Written, DocOk, Starting;
    WrittenStarts(d);
    StandsChar(c, p, Written(d), 0);
  }

  lemma ElementsStart(c: string, p: nat, es: Elements)
    requires es.Element? && ElementsOk(es) && Stands(c, p, ElementsText(es))
    ensures p < |c| && Starting(c[p])
  {
    hide DocOk, Written, Stands, Blanks, Starting;
    ElementChain(c, p, es);
    StartsHere(c, p, es.head);
  }

  lemma InkFacts(ch: char)
    ensures Starting(ch) ==> ch as int > 32 && ch != ']' && ch != '}'
    ensures ',' as int > 32 && ']' as int > 32 && '}' as int > 32 && ':' as int > 32 && '\"' as int > 32
    ensures !NumberChar(',') && !NumberChar(']') && !NumberChar('}')
  {
  }

  lemma {:induction false} ElementsAccepted(c: string, off: nat, p: nat, es: Elements, depth: nat)
    requires es.Element? && ElementsOk(es) && ItemsFit(ItemsOf(es), depth)
    requires off < p <= |c| && Blank(c, off + 1, p) && Stands(c, p, ElementsText(es))
    requires p + |ElementsText(es)| < |c| && c[p + |ElementsText(es)|] == ']'
    ensures ParseItems(c, off, depth) == Parsed(ItemsOf(es), p + |ElementsText(es)|)
    decreases es, 0
  {
    hide *;
    ElementsFacts(es, depth);
    ElementChain(c, p, es);
    var q := p + |Written(es.head)|;
    var z := q + |es.after|;
    InkFacts(',');
    StartsHere(c, p, es.head);
    InkFacts(c[p]);
    if es.next.Element? {
      NextElement(c, z, es);
      var n := z + 1 + |es.next.before|;
      ElementsFacts(es.next, depth);
      BlanksHere(c, z + 1, es.next.before);
      BlanksEnd(c, q, es.after);
      DocAccepted(c, p, es.head, depth);
      ElementsAccepted(c, z, n, es.next, depth);
      SkipBlanks(c, q, es.after);
      ItemsBy(c, off, p, q, z, TreeOf(es.head), depth);
    } else {
      TailEmpty(es);
      BlanksEnd(c, q, es.after);
      DocAccepted(c, p, es.head, depth);
      SkipBlanks(c, q, es.after);
      ItemsBy(c, off, p, q, z, TreeOf(es.head), depth);
      NoElements(es.next);
    }
  }

  lemma NoElements(es: Elements)
    requires es.NoElement?
    ensures ElementsOk(es) && ItemsOf(es) == NoItem
  {
  }

  lemma TailEmpty(es: Elements)
    requires es.Element? && es.next.NoElement?
    ensures ElementTail(es) == ""
  {
  }

  // An element parsed, given the parse of its value and of what follows
  lemma ItemsBy(c: string, off: nat, p: nat, q: nat, z: nat, head: Json, depth: nat)
    requires off < p < |c| && Blank(c, off + 1, p) && c[p] as int > 32
    requires ParseValue(c, p, depth) == Parsed(head, q) && q < |c| && Skip(c, q) == z
    ensures z < |c| && c[z] != ',' ==> ParseItems(c, off, depth) == Parsed(Item(head, NoItem), z)
    ensures z < |c| && c[z] == ',' && ParseItems(c, z, depth).Parsed? ==>
              ParseItems(c, off, depth)
              == Parsed(Item(head, ParseItems(c, z, depth).value), ParseItems(c, z, depth).off)
  {
    hide ParseValue, Skip, Blank;
    SkipTo(c, off + 1, p);
  }

  lemma ListParts(c: string, p: nat, d: Doc) returns (f: nat, e: nat)
    requires d.List? && DocOk(d) && Stands(c, p, Written(d))
    ensures p < f <= e < |c| && c[p] == '[' && c[e] == ']' && e + 1 == p + |Written(d)| && Blank(c, p + 1, f)
    ensures d.elements.NoElement? ==> f == e
    ensures d.elements.Element? ==> Stands(c, f, ElementsText(d.elements)) && e == f + |ElementsText(d.elements)|
  {
    hide Stands, ElementsText, DocOk, Blanks;
    var lead := if d.elements.NoElement? then d.blank else d.elements.before;
    var rest := if d.elements.NoElement? then "" else ElementsText(d.elements);
    ListShape(d, lead, rest);
    StandsSplit(c, p, "[", lead + (rest + "]"));
    StandsSplit(c, p + 1, lead, rest + "]");
    StandsSplit(c, p + 1 + |lead|, rest, "]");
    StandsChar(c, p, "[", 0);
    f := p + 1 + |lead|;
    e := f + |rest|;
    StandsBound(c, e, "]");
    StandsChar(c, e, "]", 0);
    LeadBlank(d);
    BlanksHere(c, p + 1, lead);
  }

  lemma BlanksHere(c: string, p: nat, s: string)
    requires Stands(c, p, s) && Blanks(s)
    ensures p + |s| <= |c| && Blank(c, p, p + |s|)
  {
    BlankText(c, p, s);
  }

  lemma ListShape(d: Doc, lead: string, rest: string)
    requires d.List?
    requires lead == if d.elements.NoElement? then d.blank else d.elements.before
    requires rest == if d.elements.NoElement? then "" else ElementsText(d.elements)
    ensures Written(d) == "[" + (lead + (rest + "]")) && |Written(d)| == |lead| + |rest| + 2
  {
    hide ElementsText;
  }

  lemma LeadBlank(d: Doc)
    requires DocOk(d)
    ensures d.List? ==> Blanks(if d.elements.NoElement? then d.blank else d.elements.before)
    ensures d.Record? ==> Blanks(if d.fields.NoField? then d.blank else d.fields.before)
  {
    hide Blanks;
  }

  lemma ListFacts(d: Doc, depth: nat)
    requires d.List? && DocOk(d) && Fits(TreeOf(d), depth)
    ensures depth < NESTING_LIMIT && ElementsOk(d.elements) && TreeOf(d) == Array(ItemsOf(d.elements))
    ensures ItemsFit(ItemsOf(d.elements), depth + 1)
  {
    hide ElementsOk, ItemsFit, ItemsOf;
  }

  lemma ArrayBy(c: string, p: nat, depth: nat, items: Items, f: nat, end: nat)
    requires p < f < |c| && depth < NESTING_LIMIT && Skip(c, p + 1) == f
    requires c[f] == ']' ==> items == NoItem && end == f
    requires c[f] != ']' ==> ParseItems(c, f - 1, depth + 1) == Parsed(items, end) && end < |c| && c[end] == ']'
    ensures ParseArray(c, p, depth) == Parsed(Array(items), end + 1)
  {
    hide ParseItems, Skip;
  }

  lemma ListAccepted(c: string, p: nat, d: Doc, depth: nat)
    requires d.List? && DocOk(d) && Fits(TreeOf(d), depth) && Stands(c, p, Written(d))
    ensures ParseValue(c, p, depth) == Parsed(TreeOf(d), p + |Written(d)|)
    decreases d, 1
  {
    hide *;
    ListFacts(d, depth);
    var f, e := ListParts(c, p, d);
    InkFacts(']');
    ValueBy(c, p, depth);
    if d.elements.Element? {
      ElementsStart(c, f, d.elements);
      InkFacts(c[f]);
      BlankNone(c, f);
      ElementsAccepted(c, f - 1, f, d.elements, depth + 1);
      SkipTo(c, p + 1, f);
      ArrayBy(c, p, depth, ItemsOf(d.elements), f, e);
    } else {
      NoElements(d.elements);
      SkipTo(c, p + 1, f);
      ArrayBy(c, p, depth, NoItem, f, f);
    }
  }

  // ---- objects

  function FieldTail(fs: Fields): string
    requires fs.Field?
  {
    if fs.next.Field? then "," + (fs.next.before + FieldsText(fs.next)) else ""
  }

  // Where the parts of a member stand
  lemma FieldChain(c: string, p: nat, fs: Fields)
    requires fs.Field? && Stands(c, p, FieldsText(fs))
    ensures var k := p + |StrText(fs.key)|;
            var colon := k + |fs.mid|;
            var v := colon + 1 + |fs.gap|;
            var q := v + |Written(fs.head)|;
            var z := q + |fs.after|;
            && Stands(c, p, StrText(fs.key)) && Stands(c, k, fs.mid) && colon < |c| && c[colon] == ':'
            && Stands(c, colon + 1, fs.gap) && Stands(c, v, Written(fs.head)) && Stands(c, q, fs.after)
            && Stands(c, z, FieldTail(fs)) && p + |FieldsText(fs)| == z + |FieldTail(fs)| <= |c|
  {
    hide Stands, Written, StrText;
    var k := p + |StrText(fs.key)|;
    var colon := k + |fs.mid|;
    var v := colon + 1 + |fs.gap|;
    var q := v + |Written(fs.head)|;
    StandsBound(c, p, FieldsText(fs));
    StandsSplit(c, p, StrText(fs.key), fs.mid + (":" + (fs.gap + (Written(fs.head) + (fs.after + FieldTail(fs))))));
    StandsSplit(c, k, fs.mid, ":" + (fs.gap + (Written(fs.head) + (fs.after + FieldTail(fs)))));
    StandsSplit(c, colon, ":", fs.gap + (Written(fs.head) + (fs.after + FieldTail(fs))));
    StandsSplit(c, colon + 1, fs.gap, Written(fs.head) + (fs.after + FieldTail(fs)));
    StandsSplit(c, v, Written(fs.head), fs.after + FieldTail(fs));
    StandsSplit(c, q, fs.after, FieldTail(fs));
    StandsChar(c, colon, ":", 0);
  }

  lemma NextField(c: string, z: nat, fs: Fields)
    requires fs.Field? && fs.next.Field? && Stands(c, z, FieldTail(fs))
    ensures z < |c| && c[z] == ',' && Stands(c, z + 1, fs.next.before)
    ensures Stands(c, z + 1 + |fs.next.before|, FieldsText(fs.next))
    ensures |FieldTail(fs)| == 1 + |fs.next.before| + |FieldsText(fs.next)|
  {
    hide Stands, FieldsText;
    StandsSplit(c, z, ",", fs.next.before + FieldsText(fs.next));
    StandsSplit(c, z + 1, fs.next.before, FieldsText(fs.next));
    StandsBound(c, z, ",");
    StandsChar(c, z, ",", 0);
  }

  lemma FieldsFacts(fs: Fields, depth: nat)
    requires fs.Field? && FieldsOk(fs) && MembersFit(MembersOf(fs), depth)
    ensures Blanks(fs.before) && StrOk(fs.key) && Blanks(fs.mid) && Blanks(fs.gap) && DocOk(fs.head) && Blanks(fs.after)
    ensures FieldsOk(fs.next) && Fits(TreeOf(fs.head), depth) && MembersFit(MembersOf(fs.next), depth)
    ensures MembersOf(fs) == Member(StrValue(fs.key), TreeOf(fs.head), MembersOf(fs.next))
  {
    hide DocOk, Fits, TreeOf, Blanks, StrOk, StrValue;
  }

  lemma KeyStarts(c: string, p: nat, s: Str)
    requires Stands(c, p, StrText(s))
    ensures p < |c| && c[p] == '\"'
  {
    hide Stands;
    StrParts(c, p, s);
  }

  lemma FieldsStart(c: string, p: nat, fs: Fields)
    requires fs.Field? && Stands(c, p, FieldsText(fs))
    ensures p < |c| && c[p] == '\"'
  {
    hide Stands;
    FieldChain(c, p, fs);
    KeyStarts(c, p, fs.key);
  }

  lemma MembersBy(c: string, off: nat, k: nat, key: string, t: nat, colon: nat, v: nat, head: Json, q: nat, z: nat,
                  depth: nat)
    requires off + 1 < |c| && Skip(c, off + 1) == k && ParseText(c, k) == Parsed(key, t)
    requires Skip(c, t) == colon < |c| && c[colon] == ':' && Skip(c, colon + 1) == v
    requires ParseValue(c, v, depth) == Parsed(head, q) && q < |c| && Skip(c, q) == z
    ensures c[z] != ',' ==> ParseMembers(c, off, depth) == Parsed(Member(key, head, NoMember), z)
    ensures c[z] == ',' && ParseMembers(c, z, depth).Parsed? ==>
              ParseMembers(c, off, depth)
              == Parsed(Member(key, head, ParseMembers(c, z, depth).value), ParseMembers(c, z, depth).off)
  {
    hide ParseValue, Skip, ParseText;
  }

  // The key, the colon and the white space around them
  lemma KeyAccepted(c: string, off: nat, p: nat, fs: Fields)
    requires fs.Field? && StrOk(fs.key) && Blanks(fs.mid) && Blanks(fs.gap) && DocOk(fs.head)
    requires off < p < |c| && Blank(c, off + 1, p) && Stands(c, p, FieldsText(fs))
    ensures var k := p + |StrText(fs.key)|;
            var colon := k + |fs.mid|;
            && off + 1 < |c| && Skip(c, off + 1) == p && ParseText(c, p) == Parsed(StrValue(fs.key), k)
            && colon < |c| && c[colon] == ':' && Skip(c, k) == colon && Skip(c, colon + 1) == colon + 1 + |fs.gap|
  {
    hide *;
    FieldChain(c, p, fs);
    var k := p + |StrText(fs.key)|;
    var colon := k + |fs.mid|;
    InkFacts(':');
    KeyStarts(c, p, fs.key);
    TextAccepted(c, p, fs.key);
    SkipTo(c, off + 1, p);
    SkipBlanks(c, k, fs.mid);
    StartsHere(c, colon + 1 + |fs.gap|, fs.head);
    InkFacts(c[colon + 1 + |fs.gap|]);
    SkipBlanks(c, colon + 1, fs.gap);
  }

  lemma {:induction false} FieldsAccepted(c: string, off: nat, p: nat, fs: Fields, depth: nat)
    requires fs.Field? && FieldsOk(fs) && MembersFit(MembersOf(fs), depth)
    requires off < p <= |c| && Blank(c, off + 1, p) && Stands(c, p, FieldsText(fs))
    requires p + |FieldsText(fs)| < |c| && c[p + |FieldsText(fs)|] == '}'
    ensures ParseMembers(c, off, depth) == Parsed(MembersOf(fs), p + |FieldsText(fs)|)
    decreases fs, 0
  {
    hide *;
    FieldsFacts(fs, depth);
    FieldsStart(c, p, fs);
    KeyAccepted(c, off, p, fs);
    FieldChain(c, p, fs);
    var k := p + |StrText(fs.key)|;
    var colon := k + |fs.mid|;
    var v := colon + 1 + |fs.gap|;
    var q := v + |Written(fs.head)|;
    var z := q + |fs.after|;
    InkFacts(',');
    if fs.next.Field? {
      NextField(c, z, fs);
      var n := z + 1 + |fs.next.before|;
      FieldsFacts(fs.next, depth);
      BlanksHere(c, z + 1, fs.next.before);
      BlanksEnd(c, q, fs.after);
      DocAccepted(c, v, fs.head, depth);
      FieldsAccepted(c, z, n, fs.next, depth);
      SkipBlanks(c, q, fs.after);
      MembersBy(c, off, p, StrValue(fs.key), k, colon, v, TreeOf(fs.head), q, z, depth);
    } else {
      FieldTailEmpty(fs);
      BlanksEnd(c, q, fs.after);
      DocAccepted(c, v, fs.head, depth);
      SkipBlanks(c, q, fs.after);
      MembersBy(c, off, p, StrValue(fs.key), k, colon, v, TreeOf(fs.head), q, z, depth);
      NoFields(fs.next);
    }
  }

  lemma FieldTailEmpty(fs: Fields)
    requires fs.Field? && fs.next.NoField?
    ensures FieldTail(fs) == ""
  {
  }

  lemma NoFields(fs: Fields)
    requires fs.NoField?
    ensures FieldsOk(fs) && MembersOf(fs) == NoMember
  {
  }

  lemma RecordParts(c: string, p: nat, d: Doc) returns (f: nat, e: nat)
    requires d.Record? && DocOk(d) && Stands(c, p, Written(d))
    ensures p < f <= e < |c| && c[p] == '{' && c[e] == '}' && e + 1 == p + |Written(d)| && Blank(c, p + 1, f)
    ensures d.fields.NoField? ==> f == e
    ensures d.fields.Field? ==> Stands(c, f, FieldsText(d.fields)) && e == f + |FieldsText(d.fields)|
  {
    hide Stands, FieldsText, DocOk, Blanks;
    var lead := if d.fields.NoField? then d.blank else d.fields.before;
    var rest := if d.fields.NoField? then "" else FieldsText(d.fields);
    RecordShape(d, lead, rest);
    StandsSplit(c, p, "{", lead + (rest + "}"));
    StandsSplit(c, p + 1, lead, rest + "}");
    StandsSplit(c, p + 1 + |lead|, rest, "}");
    StandsChar(c, p, "{", 0);
    f := p + 1 + |lead|;
    e := f + |rest|;
    StandsBound(c, e, "}");
    StandsChar(c, e, "}", 0);
    LeadBlank(d);
    BlanksHere(c, p + 1, lead);
  }

  lemma RecordShape(d: Doc, lead: string, rest: string)
    requires d.Record?
    requires lead == if d.fields.NoField? then d.blank else d.fields.before
    requires rest == if d.fields.NoField? then "" else FieldsText(d.fields)
    ensures Written(d) == "{" + (lead + (rest + "}")) && |Written(d)| == |lead| + |rest| + 2
  {
    hide FieldsText;
  }

  lemma RecordFacts(d: Doc, depth: nat)
    requires d.Record? && DocOk(d) && Fits(TreeOf(d), depth)
    ensures depth < NESTING_LIMIT && FieldsOk(d.fields) && TreeOf(d) == Object(MembersOf(d.fields))
    ensures MembersFit(MembersOf(d.fields), depth + 1)
  {
    hide FieldsOk, MembersFit, MembersOf;
  }

  lemma RecordAccepted(c: string, p: nat, d: Doc, depth: nat)
    requires d.Record? && DocOk(d) && Fits(TreeOf(d), depth) && Stands(c, p, Written(d))
    ensures ParseValue(c, p, depth) == Parsed(TreeOf(d), p + |Written(d)|)
    decreases d, 1
  {
    hide *;
    RecordFacts(d, depth);
    var f, e := RecordParts(c, p, d);
    InkFacts('}');
    ValueBy(c, p, depth);
    if d.fields.Field? {
      FieldsStart(c, f, d.fields);
      BlankNone(c, f);
      FieldsAccepted(c, f - 1, f, d.fields, depth + 1);
      SkipTo(c, p + 1, f);
      ObjectStep(c, p, depth, MembersOf(d.fields), f, e);
    } else {
      NoFields(d.fields);
      SkipTo(c, p + 1, f);
      ObjectStep(c, p, depth, NoMember, f, f);
    }
  }

  /** Wherever a document stands in a buffer, at any depth that its nesting allows, the
      parser reads it to its end and answers its tree. */
  lemma {:induction false} DocAccepted(c: string, p: nat, d: Doc, depth: nat)
    requires DocOk(d) && Fits(TreeOf(d), depth)
    requires Stands(c, p, Written(d)) && p + |Written(d)| < |c| && !NumberChar(c[p + |Written(d)|])
    ensures ParseValue(c, p, depth) == Parsed(TreeOf(d), p + |Written(d)|)
    decreases d, 2
  {
    hide *;
    if d.List? {
      ListAccepted(c, p, d, depth);
    } else if d.Record? {
      RecordAccepted(c, p, d, depth);
    } else {
      ScalarAccepted(c, p, d, depth);
    }
  }

  // ---- whole texts

  lemma MarkSkipped(c: string, mark: bool, rest: string)
    requires c == (if mark then BOM else "") + rest && |rest| >= 2 && rest[0] as int < 128
    ensures SkipBom(c) == if mark then 3 else 0
  {
    if mark {
      assert c[..3] == BOM;
    } else {
      assert c == rest;
      NoBom(c);
    }
  }

  lemma BlankLow(s: string, t: string)
    requires Blanks(s) && t != "" && Starting(t[0])
    ensures (s + t)[0] as int < 128
  {
    if s != "" {
      assert (s + t)[0] == s[0];
    }
  }

  lemma WholeBy(c: string, from: nat, off: nat, j: Json, n: nat)
    requires c != "" && SkipBom(c) <= |c| && Skip(c, SkipBom(c)) == from && ParseValue(c, from, 0) == Parsed(j, off)
    requires n + 1 == |c| && off <= n && c[n] as int == 0 && Blank(c, off, |c|)
    ensures Parse(c, true) == Parsed(j, n)
  {
    hide ParseValue, SkipBom;
    AllBlank(c, off);
  }

  lemma {:induction false} AllBlank(c: string, i: nat)
    requires i <= |c| && Blank(c, i, |c|)
    ensures FirstInk(c, i) == |c|
    decreases |c| - i
  {
    if i < |c| {
      AllBlank(c, i + 1);
    }
  }

  lemma SpellsIs(text: string, d: Doc, mark: bool, before: string, after: string)
    requires Spells(text, d, mark, before, after)
    ensures DocOk(d) && Blanks(before) && Blanks(after)
    ensures text == (if mark then BOM else "") + (before + (Written(d) + after))
  {
    hide DocOk, Blanks, Written;
  }

  lemma MarkLong()
    ensures |BOM| == 3
  {
  }

  lemma Ended(a: string, b: string, w: string, e: string, z: string)
    ensures a + (b + (w + e)) + z == a + (b + (w + (e + z)))
  {
  }

  lemma TextChain(text: string, d: Doc, mark: bool, before: string, after: string)
    requires Spells(text, d, mark, before, after)
    ensures var c := text + [0 as char];
            var m := if mark then 3 else 0;
            var p := m + |before|;
            && DocOk(d) && Blanks(before) && Blanks(after)
            && Stands(c, m, before) && Stands(c, p, Written(d)) && Stands(c, p + |Written(d)|, after)
            && p + |Written(d)| + |after| == |text| && c[|text|] as int == 0
            && c == (if mark then BOM else "") + (before + (Written(d) + (after + [0 as char])))
  {
    hide *;
    SpellsIs(text, d, mark, before, after);
    var w := Written(d);
    var bom := if mark then BOM else "";
    var c := text + [0 as char];
    MarkLong();
    Ended(bom, before, w, after, [0 as char]);
    assert |text| == |bom| + |before| + |w| + |after|;
    WholeStands(c);
    StandsSplit(c, 0, bom, before + (w + (after + [0 as char])));
    StandsSplit(c, |bom|, before, w + (after + [0 as char]));
    StandsSplit(c, |bom| + |before|, w, after + [0 as char]);
    StandsSplit(c, |bom| + |before| + |w|, after, [0 as char]);
  }

  lemma WholeStands(c: string)
    ensures Stands(c, 0, c)
  {
    assert c[0..|c|] == c;
  }

  /** Every text of the grammar whose nesting the parser allows is accepted, to its last
      character, with the tree it stands for. */
  lemma TextParses(text: string, d: Doc, mark: bool, before: string, after: string)
    requires Spells(text, d, mark, before, after) && Fits(TreeOf(d), 0)
    ensures Parse(text + [0 as char], true) == Parsed(TreeOf(d), |text|)
  {
    hide *;
    var c := text + [0 as char];
    var m := if mark then 3 else 0;
    var p := m + |before|;
    var q := p + |Written(d)|;
    TextChain(text, d, mark, before, after);
    WrittenStarts(d);
    StartsHere(c, p, d);
    InkFacts(c[p]);
    BlankLow(before, Written(d));
    FrontOf(c, mark, before, Written(d), after);
    SkipBlanks(c, m, before);
    TailBlank(c, q, after);
    DocAccepted(c, p, d, 0);
    WholeBy(c, p, q, TreeOf(d), |text|);
  }

  lemma FrontOf(c: string, mark: bool, before: string, w: string, after: string)
    requires c == (if mark then BOM else "") + (before + (w + (after + [0 as char])))
    requires w != "" && (before + w)[0] as int < 128
    ensures SkipBom(c) == if mark then 3 else 0
  {
    hide SkipBom;
    var rest := before + (w + (after + [0 as char]));
    assert rest[0] == (before + w)[0];
    MarkSkipped(c, mark, rest);
  }

  // Nothing but blanks up to the terminator
  lemma TailBlank(c: string, q: nat, after: string)
    requires Stands(c, q, after) && Blanks(after) && q + |after| + 1 == |c| && c[q + |after|] as int == 0
    ensures Blank(c, q, |c|) && !NumberChar(c[q])
  {
    BlankText(c, q, after);
  }

  /** RFC 8259. Every JSON text whose numbers are integers of 32 bits, however it is
      spelt and spaced, parses to its tree, if it is nested at most 1000 deep. */
  lemma StandardTextParses(text: string, d: Doc, before: string, after: string)
    requires Strict(d) && Space8259(before) && Space8259(after) && text == before + (Written(d) + after)
    ensures DocOk(d)
    ensures Fits(TreeOf(d), 0) ==> Parse(text + [0 as char], true) == Parsed(TreeOf(d), |text|)
  {
    StrictOk(d);
    hide Strict, DocOk, Fits, TreeOf, Parse, Written;
    assert text == "" + (before + (Written(d) + after));
    if Fits(TreeOf(d), 0) {
      TextParses(text, d, false, before, after);
    }
  }
}
