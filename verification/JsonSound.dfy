/** The parser accepts nothing but the texts of the grammar, and each with its tree. */
module JsonSound {
  import opened Basics
  import opened JsonTree
  import opened JsonParse
  import opened JsonGrammar
  import opened JsonText
  import opened JsonAccepts

  // A slice stands where it was taken.
  lemma SliceStands(c: string, i: nat, j: nat)
    requires i <= j <= |c|
    ensures Stands(c, i, c[i..j])
  {
  }

  // ---- white space

  lemma {:induction false} InkBlank(c: string, i: nat)
    requires i <= |c|
    ensures Blank(c, i, FirstInk(c, i))
    decreases |c| - i
  {
    if i < |c| && c[i] as int <= 32 {
      InkBlank(c, i + 1);
    }
  }

  // Skipping that ends on ink passed only white space.
  lemma Skipped(c: string, off: nat)
    requires off <= |c| && Skip(c, off) < |c| && c[Skip(c, off)] as int > 32
    ensures Blanks(c[off..Skip(c, off)]) && Stands(c, off, c[off..Skip(c, off)])
    ensures Skip(c, Skip(c, off)) == Skip(c, off)
  {
    InkBlank(c, off);
    var r := Skip(c, off);
    BlankNone(c, r);
    SkipTo(c, r, r);
    hide FirstInk;
    forall i | 0 <= i < r - off
      ensures c[off..r][i] as int <= 32
    {
      assert c[off..r][i] == c[off + i];
    }
  }

  // ---- strings

  lemma {:induction false} CloseScanned(c: string, i: nat)
    requires i <= |c| && CloseQuote(c, i).Some?
    ensures Scanned(c[i..CloseQuote(c, i).value])
    decreases |c| - i
  {
    var end := CloseQuote(c, i).value;
    if c[i] != '\"' {
      var n := if c[i] == '\\' then 2 else 1;
      CloseScanned(c, i + n);
      assert c[i..end][n..] == c[i + n..end];
      assert c[i..end][0] == c[i];
    }
  }

  // One escape as a piece
  lemma ShortSpelt(c: string, i: nat, end: nat)
    requires i < end < |c| && c[i] == '\\' && c[end] == '\"' && c[i + 1] in LETTERS
    ensures var p := Short(c[i + 1]);
            && PieceOk(p) && Stands(c, i, PieceText(p)) && Escape(c, i, end) == Some((PieceBytes(p), 2))
            && |PieceText(p)| == 2 && (i + 2 <= end || (i + 2 == end + 1 && p == Short('\"')))
  {
    ShortBack(c, i, end, c[i + 1]);
    assert c[i..i + 2] == "\\" + [c[i + 1]];
  }

  lemma NoOther(c: string, i: nat, end: nat)
    requires i < end < |c| && c[i] == '\\' && Escape(c, i, end).Some?
    ensures c[i + 1] in LETTERS
            || (c[i + 1] == 'u' && Literal(c, i, end).Some? && Escape(c, i, end) == Literal(c, i, end))
  {
    hide Literal;
  }

  lemma FourStand(c: string, i: nat)
    requires i + 6 <= |c| && c[i] == '\\' && c[i + 1] == 'u'
    ensures Stands(c, i, "\\u" + c[i + 2..i + 6])
  {
    assert c[i..i + 6] == "\\u" + c[i + 2..i + 6];
  }

  lemma EscapedSpelt(c: string, i: nat, end: nat)
    requires i + 6 <= end < |c| && c[i] == '\\' && c[i + 1] == 'u'
    requires Literal(c, i, end).Some? && Literal(c, i, end).value.1 == 6
    ensures var p := Escaped(c[i + 2..i + 6]);
            && PieceOk(p) && Stands(c, i, PieceText(p)) && |PieceText(p)| == 6
            && Literal(c, i, end) == Some((PieceBytes(p), 6))
  {
    var t := c[i + 2..i + 6];
    HexIs(t);
    FourStand(c, i);
    hide Hex4, HexNumber, Utf8, Stands;
  }

  lemma PairSpelt(c: string, i: nat, end: nat)
    requires i + 12 <= end < |c| && c[i] == '\\' && c[i + 1] == 'u'
    requires Literal(c, i, end).Some? && Literal(c, i, end).value.1 == 12
    ensures var p := Pair(c[i + 2..i + 6], c[i + 8..i + 12]);
            && PieceOk(p) && Stands(c, i, PieceText(p)) && |PieceText(p)| == 12
            && Literal(c, i, end) == Some((PieceBytes(p), 12))
  {
    var t, u := c[i + 2..i + 6], c[i + 8..i + 12];
    HexIs(t);
    HexIs(u);
    FourStand(c, i);
    PairStarts(c, i, end);
    FourStand(c, i + 6);
    StandsSplit(c, i, "\\u" + t, "\\u" + u);
    assert PieceText(Pair(t, u)) == ("\\u" + t) + ("\\u" + u);
    hide Hex4, HexNumber, Utf8, Stands;
    PairIs(HexNumber(t), HexNumber(u));
  }

  lemma PairStarts(c: string, i: nat, end: nat)
    requires i + 12 <= end < |c| && Literal(c, i, end).Some? && Literal(c, i, end).value.1 == 12
    ensures c[i + 6] == '\\' && c[i + 7] == 'u'
  {
    hide Hex4, Utf8;
  }

  lemma LiteralLong(c: string, i: nat, end: nat)
    requires i < end < |c| && Literal(c, i, end).Some?
    ensures var n := Literal(c, i, end).value.1; (n == 6 || n == 12) && i + n <= end
  {
    hide Hex4, Utf8;
  }

  lemma PieceSpelt(c: string, i: nat, end: nat) returns (p: Piece)
    requires i < end < |c| && c[i] == '\\' && c[end] == '\"' && Escape(c, i, end).Some?
    ensures PieceOk(p) && Stands(c, i, PieceText(p))
    ensures Escape(c, i, end) == Some((PieceBytes(p), |PieceText(p)|))
    ensures i + |PieceText(p)| <= end || (i + |PieceText(p)| == end + 1 && p == Short('\"'))
  {
    hide Escape, Literal, Stands, PieceOk, PieceBytes, PieceText;
    NoOther(c, i, end);
    if c[i + 1] in LETTERS {
      ShortSpelt(c, i, end);
      p := Short(c[i + 1]);
    } else {
      LiteralLong(c, i, end);
      if Literal(c, i, end).value.1 == 6 {
        EscapedSpelt(c, i, end);
        p := Escaped(c[i + 2..i + 6]);
      } else {
        PairSpelt(c, i, end);
        p := Pair(c[i + 2..i + 6], c[i + 8..i + 12]);
      }
    }
  }

  lemma RawSpelt(c: string, i: nat)
    requires i < |c| && c[i] != '\\'
    ensures var p := Raw(c[i]);
            PieceOk(p) && Stands(c, i, PieceText(p)) && PieceBytes(p) == [c[i]] && |PieceText(p)| == 1
  {
  }

  lemma PiecesCons(p: Piece, ps: seq<Piece>)
    requires PieceOk(p) && PiecesOk(ps)
    ensures PiecesOk([p] + ps) && PiecesText([p] + ps) == PieceText(p) + PiecesText(ps)
    ensures PiecesBytes([p] + ps) == PieceBytes(p) + PiecesBytes(ps)
    ensures Last(ps) || (ps == [] && p == Short('\"')) ==> Last([p] + ps)
  {
    hide PieceOk, PieceText, PieceBytes;
    assert ([p] + ps)[1..] == ps;
    if ps != [] {
      assert ([p] + ps)[|ps|] == ps[|ps| - 1];
    }
  }

  lemma NoPieces()
    ensures PiecesOk([]) && PiecesText([]) == "" && PiecesBytes([]) == ""
  {
  }

  // What one turn of the decoding loop read
  lemma DecodeTurn(c: string, i: nat, end: nat) returns (bytes: string, n: nat)
    requires i < end < |c| && Decode(c, i, end).Some?
    ensures n > 0 && Decode(c, i + n, end).Some? && Decode(c, i, end).value == bytes + Decode(c, i + n, end).value
    ensures c[i] != '\\' ==> bytes == [c[i]] && n == 1
    ensures c[i] == '\\' ==> Escape(c, i, end) == Some((bytes, n))
  {
    hide Escape;
    if c[i] != '\\' {
      bytes, n := [c[i]], 1;
    } else {
      bytes, n := Escape(c, i, end).value.0, Escape(c, i, end).value.1;
    }
  }

  lemma DecodePast(c: string, i: nat, end: nat)
    requires end < |c| && i >= end
    ensures Decode(c, i, end) == Some("")
  {
  }

  lemma {:induction false} DecodeSpelt(c: string, i: nat, end: nat) returns (ps: seq<Piece>)
    requires i <= end < |c| && c[end] == '\"' && Decode(c, i, end).Some?
    ensures PiecesOk(ps) && Decode(c, i, end) == Some(PiecesBytes(ps)) && Stands(c, i, PiecesText(ps))
    ensures |PiecesText(ps)| == end - i || (|PiecesText(ps)| == end - i + 1 && Last(ps))
    decreases end - i
  {
    hide *;
    NoPieces();
    if i == end {
      ps := [];
      DecodePast(c, i, end);
      NothingStands(c, i);
    } else {
      var bytes, n := DecodeTurn(c, i, end);
      var p := Raw(c[i]);
      if c[i] == '\\' {
        p := PieceSpelt(c, i, end);
      } else {
        RawSpelt(c, i);
      }
      if i + n <= end {
        var rest := DecodeSpelt(c, i + n, end);
        ps := [p] + rest;
        PiecesCons(p, rest);
        StandsSplit(c, i, PieceText(p), PiecesText(rest));
      } else {
        DecodePast(c, i + n, end);
        ps := [p] + [];
        PiecesCons(p, []);
        StandsSplit(c, i, PieceText(p), "");
        NothingStands(c, end + 1);
      }
    }
  }

  lemma NothingStands(c: string, i: nat)
    requires i <= |c|
    ensures Stands(c, i, "")
  {
  }

  lemma TextIs(c: string, p: nat)
    requires p <= |c| && ParseText(c, p).Parsed?
    ensures p < |c| && c[p] == '\"' && CloseQuote(c, p + 1).Some?
    ensures var end := CloseQuote(c, p + 1).value;
            Decode(c, p + 1, end).Some? && ParseText(c, p) == Parsed(CString(Decode(c, p + 1, end).value), end + 1)
  {
    hide CloseQuote, Decode, CString;
  }

  lemma TextSpelt(c: string, p: nat) returns (s: Str)
    requires p <= |c| && ParseText(c, p).Parsed?
    ensures StrOk(s) && Stands(c, p, StrText(s))
    ensures ParseText(c, p) == Parsed(StrValue(s), p + |StrText(s)|)
  {
    hide *;
    TextIs(c, p);
    var end := CloseQuote(c, p + 1).value;
    CloseScanned(c, p + 1);
    var ps := DecodeSpelt(c, p + 1, end);
    s := Str(c[p + 1..end], ps);
    ContentFills(c, p + 1, end, ps);
    StrIs(s);
    QuotesStand(c, p, end, ps);
  }

  lemma ContentFills(c: string, i: nat, end: nat, ps: seq<Piece>)
    requires i <= end < |c| && c[end] == '\"' && Stands(c, i, PiecesText(ps))
    requires |PiecesText(ps)| == end - i || (|PiecesText(ps)| == end - i + 1 && Last(ps))
    ensures Fills(Str(c[i..end], ps))
  {
    hide PiecesText;
    if |PiecesText(ps)| == end - i {
      assert c[i..i + |PiecesText(ps)|] == PiecesText(ps);
    } else {
      assert c[i..end + 1] == c[i..end] + "\"";
    }
  }

  lemma StrIs(s: Str)
    ensures StrOk(s) <==> PiecesOk(s.pieces) && Scanned(s.content) && Fills(s)
    ensures StrOk(s) ==> StrValue(s) == CString(PiecesBytes(s.pieces))
  {
    hide PiecesOk, Scanned, Fills, CString, PiecesBytes;
  }

  lemma QuotesStand(c: string, p: nat, end: nat, ps: seq<Piece>)
    requires p < end < |c| && c[p] == '\"' && c[end] == '\"'
    ensures var s := Str(c[p + 1..end], ps); Stands(c, p, StrText(s)) && p + |StrText(s)| == end + 1
  {
    assert c[p..end + 1] == "\"" + c[p + 1..end] + "\"";
  }

  // ---- numbers

  lemma NumberIs(c: string, p: nat)
    requires p < |c| && ParseNumber(c, p).Parsed?
    ensures var t := c[p..RunEnd(c, p)];
            var minus := t != "" && t[0] == '-';
            var digits := if minus then t[1..] else t;
            var v: int := if minus then 0 - ValueOf(digits) else ValueOf(digits);
            AllDigits(digits) && -0x8000_0000 <= v <= 0x7fff_ffff && ParseNumber(c, p) == Parsed(v, RunEnd(c, p))
  {
    hide RunEnd, AllDigits, ValueOf;
  }

  lemma CountIs(minus: bool, digits: string)
    requires AllDigits(digits)
    ensures CountOf(minus, digits) == if minus then 0 - ValueOf(digits) else ValueOf(digits)
    ensures CountOk(minus, digits) <==> -0x8000_0000 <= CountOf(minus, digits) <= 0x7fff_ffff
  {
    DigitsValueIs(digits);
    hide ValueOf, DigitsValue;
  }

  lemma CountText(t: string, minus: bool, digits: string)
    requires minus <==> t != "" && t[0] == '-'
    requires digits == if minus then t[1..] else t
    ensures Written(Count(minus, digits)) == t
  {
    if minus {
      assert t == "-" + t[1..];
    } else {
      assert "" + digits == t;
    }
  }

  lemma NumberSpelt(c: string, p: nat) returns (d: Doc)
    requires p < |c| && ParseNumber(c, p).Parsed?
    ensures d.Count? && CountOk(d.minus, d.digits) && Stands(c, p, Written(d))
    ensures ParseNumber(c, p) == Parsed(CountOf(d.minus, d.digits), p + |Written(d)|)
  {
    hide *;
    NumberIs(c, p);
    var t := c[p..RunEnd(c, p)];
    var minus := t != "" && t[0] == '-';
    var digits := if minus then t[1..] else t;
    d := Count(minus, digits);
    CountIs(minus, digits);
    CountText(t, minus, digits);
    SliceStands(c, p, RunEnd(c, p));
  }

  // ---- values

  // What is parsed starts with ink.
  lemma ValueStarts(c: string, p: nat, depth: nat)
    requires p <= |c| && ParseValue(c, p, depth).Parsed?
    ensures p < |c| && c[p] as int > 32
    ensures Starts(c, p, "null") || Starts(c, p, "false") || Starts(c, p, "true") || c[p] == '\"' || c[p] == '-'
            || IsDigit(c[p]) || c[p] == '[' || c[p] == '{'
  {
    if p < |c| {
      WordStarts(c, p);
    }
    hide ParseText, ParseNumber, ParseArray, ParseObject, IsDigit;
    DigitInk(c, p);
  }

  lemma DigitInk(c: string, p: nat)
    ensures p < |c| && IsDigit(c[p]) ==> c[p] as int > 32
  {
  }

  lemma WordSpelt(c: string, p: nat, depth: nat) returns (d: Doc)
    requires p < |c| && (Starts(c, p, "null") || Starts(c, p, "false") || Starts(c, p, "true"))
    ensures DocOk(d) && Fits(TreeOf(d), depth) && Stands(c, p, Written(d))
    ensures ParseValue(c, p, depth) == Parsed(TreeOf(d), p + |Written(d)|)
  {
    d := if Starts(c, p, "null") then Nothing else if Starts(c, p, "false") then No else Yes;
    WordAccepted(c, p, d, depth);
  }

  // Which parser a first character calls
  lemma ValueFrom(c: string, p: nat, depth: nat)
    requires p < |c| && !Starts(c, p, "null") && !Starts(c, p, "false") && !Starts(c, p, "true")
    requires ParseValue(c, p, depth).Parsed?
    ensures c[p] == '\"' ==>
              ParseText(c, p).Parsed?
              && ParseValue(c, p, depth) == Parsed(Text(ParseText(c, p).value), ParseText(c, p).off)
    ensures c[p] == '-' || IsDigit(c[p]) ==>
              ParseNumber(c, p).Parsed?
              && ParseValue(c, p, depth) == Parsed(Number(ParseNumber(c, p).value), ParseNumber(c, p).off)
    ensures c[p] == '[' ==> ParseValue(c, p, depth) == ParseArray(c, p, depth)
    ensures c[p] == '{' ==> ParseValue(c, p, depth) == ParseObject(c, p, depth)
  {
    DigitPlain(c[p]);
    hide ParseText, ParseNumber, ParseArray, ParseObject, Starts, IsDigit;
  }

  lemma DigitPlain(ch: char)
    ensures IsDigit(ch) ==> ch != '\"' && ch != '-' && ch != '[' && ch != '{'
  {
  }

  lemma WordsDoc(s: Str, depth: nat)
    requires StrOk(s)
    ensures var d := Words(s);
            DocOk(d) && TreeOf(d) == Text(StrValue(s)) && Fits(TreeOf(d), depth) && Written(d) == StrText(s)
  {
    hide StrOk, StrValue, StrText;
  }

  lemma CountDoc(d: Doc, depth: nat)
    requires d.Count? && CountOk(d.minus, d.digits)
    ensures DocOk(d) && TreeOf(d) == Number(CountOf(d.minus, d.digits)) && Fits(TreeOf(d), depth)
  {
    hide CountOk, CountOf;
  }

  /** Whatever the parser reads as a value is the text of a document with that tree. */
  lemma {:induction false} ValueSpelt(c: string, p: nat, depth: nat) returns (d: Doc)
    requires p <= |c| && ParseValue(c, p, depth).Parsed?
    ensures DocOk(d) && Fits(TreeOf(d), depth) && Stands(c, p, Written(d))
    ensures ParseValue(c, p, depth) == Parsed(TreeOf(d), p + |Written(d)|)
    decreases |c| - p, 2
  {
    hide *;
    ValueStarts(c, p, depth);
    if Starts(c, p, "null") || Starts(c, p, "false") || Starts(c, p, "true") {
      d := WordSpelt(c, p, depth);
    } else {
      ValueFrom(c, p, depth);
      if c[p] == '\"' {
        var s := TextSpelt(c, p);
        d := Words(s);
        WordsDoc(s, depth);
      } else if c[p] == '[' {
        d := ListSpelt(c, p, depth);
      } else if c[p] == '{' {
        d := RecordSpelt(c, p, depth);
      } else {
        d := NumberSpelt(c, p);
        CountDoc(d, depth);
      }
    }
  }

  // ---- arrays

  lemma ArrayIs(c: string, p: nat, depth: nat)
    requires p < |c| && ParseArray(c, p, depth).Parsed?
    ensures depth < NESTING_LIMIT && Skip(c, p + 1) < |c|
    ensures var f := Skip(c, p + 1);
            if c[f] == ']' then ParseArray(c, p, depth) == Parsed(Array(NoItem), f + 1)
            else
              && ParseItems(c, f - 1, depth + 1).Parsed?
              && var r := ParseItems(c, f - 1, depth + 1);
                 r.off < |c| && c[r.off] == ']' && ParseArray(c, p, depth) == Parsed(Array(r.value), r.off + 1)
  {
    hide ParseItems, Skip;
  }

  lemma ItemsAre(c: string, off: nat, depth: nat)
    requires off < |c| && ParseItems(c, off, depth).Parsed?
    ensures var p := Skip(c, off + 1);
            && ParseValue(c, p, depth).Parsed?
            && var v := ParseValue(c, p, depth);
               var z := Skip(c, v.off);
               if z < |c| && c[z] == ',' then
                 && ParseItems(c, z, depth).Parsed?
                 && var r := ParseItems(c, z, depth);
                    ParseItems(c, off, depth) == Parsed(Item(v.value, r.value), r.off)
               else ParseItems(c, off, depth) == Parsed(Item(v.value, NoItem), z)
  {
    hide ParseValue, Skip;
  }

  lemma ElementDoc(before: string, d: Doc, after: string, next: Elements, depth: nat)
    requires Blanks(before) && DocOk(d) && Blanks(after) && ElementsOk(next)
    requires Fits(TreeOf(d), depth) && ItemsFit(ItemsOf(next), depth)
    ensures var es := Element(before, d, after, next);
            && ElementsOk(es) && ItemsOf(es) == Item(TreeOf(d), ItemsOf(next)) && ItemsFit(ItemsOf(es), depth)
            && ElementsText(es) == Written(d) + (after + ElementTail(es))
  {
    hide Blanks, DocOk, Fits, TreeOf, Written;
  }

  lemma NoElementDoc(depth: nat)
    ensures ElementsOk(NoElement) && ItemsOf(NoElement) == NoItem && ItemsFit(NoItem, depth)
  {
  }

  lemma CommaStands(c: string, z: nat, es: Elements, p: nat)
    requires es.Element? && es.next.Element? && z < p <= |c| && c[z] == ',' && es.next.before == c[z + 1..p]
    requires Stands(c, p, ElementsText(es.next))
    ensures Stands(c, z, ElementTail(es)) && |ElementTail(es)| == p - z + |ElementsText(es.next)|
  {
    hide Stands, ElementsText;
    SliceStands(c, z + 1, p);
    OneStands(c, z);
    StandsSplit(c, z + 1, es.next.before, ElementsText(es.next));
    StandsSplit(c, z, ",", es.next.before + ElementsText(es.next));
  }

  lemma OneStands(c: string, z: nat)
    requires z < |c|
    ensures Stands(c, z, [c[z]])
  {
  }

  lemma ElementStands(c: string, p: nat, q: nat, z: nat, es: Elements)
    requires es.Element? && ElementsText(es) == Written(es.head) + (es.after + ElementTail(es))
    requires p <= q <= z <= |c| && Stands(c, p, Written(es.head)) && q == p + |Written(es.head)|
    requires es.after == c[q..z] && Stands(c, z, ElementTail(es))
    ensures Stands(c, p, ElementsText(es)) && |ElementsText(es)| == z - p + |ElementTail(es)|
  {
    hide Stands, ElementsText, ElementTail, Written;
    SliceStands(c, q, z);
    StandsSplit(c, q, es.after, ElementTail(es));
    StandsSplit(c, p, Written(es.head), es.after + ElementTail(es));
  }

  lemma {:induction false} ItemsSpelt(c: string, off: nat, depth: nat) returns (es: Elements)
    requires off < |c| && ParseItems(c, off, depth).Parsed?
    requires ParseItems(c, off, depth).off < |c| && c[ParseItems(c, off, depth).off] == ']'
    ensures es.Element? && ElementsOk(es) && ItemsFit(ItemsOf(es), depth)
    ensures var p := Skip(c, off + 1);
            && off < p < |c| && c[p] as int > 32 && es.before == c[off + 1..p] && Stands(c, p, ElementsText(es))
            && ParseItems(c, off, depth) == Parsed(ItemsOf(es), p + |ElementsText(es)|)
    decreases |c| - off, 0
  {
    hide *;
    ItemsAre(c, off, depth);
    var p := Skip(c, off + 1);
    ValueStarts(c, p, depth);
    Skipped(c, off + 1);
    var d := ValueSpelt(c, p, depth);
    var q := p + |Written(d)|;
    StandsBound(c, p, Written(d));
    var z := Skip(c, q);
    InkFacts(',');
    Skipped(c, q);
    var next := NoElement;
    NoElementDoc(depth);
    if c[z] == ',' {
      next := ItemsSpelt(c, z, depth);
    }
    es := Element(c[off + 1..p], d, c[q..z], next);
    ElementDoc(c[off + 1..p], d, c[q..z], next, depth);
    if c[z] == ',' {
      CommaStands(c, z, es, Skip(c, z + 1));
    } else {
      TailEmpty(es);
      NothingStands(c, z);
    }
    ElementStands(c, p, q, z, es);
  }

  lemma ListDoc(blank: string, es: Elements, depth: nat)
    requires depth < NESTING_LIMIT && Blanks(blank) && ElementsOk(es) && ItemsFit(ItemsOf(es), depth + 1)
    ensures var d := List(blank, es); DocOk(d) && TreeOf(d) == Array(ItemsOf(es)) && Fits(TreeOf(d), depth)
  {
    hide Blanks, ElementsOk, ItemsOf, ItemsFit;
  }

  lemma ListStands(c: string, p: nat, f: nat, e: nat, d: Doc, lead: string, rest: string)
    requires d.List? && p < f <= e < |c| && c[p] == '[' && c[e] == ']'
    requires lead == if d.elements.NoElement? then d.blank else d.elements.before
    requires rest == if d.elements.NoElement? then "" else ElementsText(d.elements)
    requires lead == c[p + 1..f] && Stands(c, f, rest) && e == f + |rest|
    ensures Stands(c, p, Written(d)) && p + |Written(d)| == e + 1
  {
    hide *;
    ListShape(d, lead, rest);
    SliceStands(c, p + 1, f);
    OneStands(c, p);
    OneStands(c, e);
    StandsSplit(c, f, rest, "]");
    StandsSplit(c, p + 1, lead, rest + "]");
    StandsSplit(c, p, "[", lead + (rest + "]"));
  }

  lemma ListSpelt(c: string, p: nat, depth: nat) returns (d: Doc)
    requires p < |c| && c[p] == '[' && ParseArray(c, p, depth).Parsed?
    ensures DocOk(d) && Fits(TreeOf(d), depth) && Stands(c, p, Written(d))
    ensures ParseArray(c, p, depth) == Parsed(TreeOf(d), p + |Written(d)|)
    decreases |c| - p, 1
  {
    hide *;
    ArrayIs(c, p, depth);
    var f := Skip(c, p + 1);
    InkFacts(']');
    SkipOnward(c, p + 1);
    if c[f] == ']' {
      Skipped(c, p + 1);
      d := List(c[p + 1..f], NoElement);
      NoElementDoc(depth + 1);
      ListDoc(c[p + 1..f], NoElement, depth);
      NothingStands(c, f);
      ListStands(c, p, f, f, d, c[p + 1..f], "");
    } else {
      var es := ItemsSpelt(c, f - 1, depth + 1);
      InkStays(c, p + 1);
      Skipped(c, p + 1);
      var e := f + |ElementsText(es)|;
      d := List("", es.(before := c[p + 1..f]));
      ElementFrom(es, c[p + 1..f]);
      NoBlanks();
      ListDoc("", es.(before := c[p + 1..f]), depth);
      ListStands(c, p, f, e, d, c[p + 1..f], ElementsText(es));
    }
  }

  lemma NoBlanks()
    ensures Blanks("")
  {
  }

  lemma SkipOnward(c: string, off: nat)
    requires off <= |c|
    ensures off <= Skip(c, off)
  {
  }

  // Skipping twice is skipping once, when ink is found.
  lemma InkStays(c: string, off: nat)
    requires off <= |c| && Skip(c, off) < |c|
    requires Skip(c, Skip(c, off)) < |c| && c[Skip(c, Skip(c, off))] as int > 32
    ensures c[Skip(c, off)] as int > 32 && Skip(c, Skip(c, off)) == Skip(c, off)
  {
    var r := Skip(c, off);
    hide FirstInk;
    InkThen(c, off);
    InkThen(c, r);
  }

  lemma {:induction false} InkThen(c: string, i: nat)
    requires i <= |c|
    ensures FirstInk(c, i) < |c| ==> c[FirstInk(c, i)] as int > 32
    ensures i < |c| && c[i] as int > 32 ==> FirstInk(c, i) == i
    ensures i + 1 == |c| && c[i] as int <= 32 ==> FirstInk(c, i) == |c|
    decreases |c| - i
  {
    if i < |c| && c[i] as int <= 32 {
      InkThen(c, i + 1);
    }
  }

  lemma ElementFrom(es: Elements, before: string)
    requires es.Element? && ElementsOk(es) && Blanks(before)
    ensures var t := es.(before := before);
            ElementsOk(t) && ItemsOf(t) == ItemsOf(es) && ElementsText(t) == ElementsText(es)
  {
    hide Blanks, DocOk, TreeOf, Written;
  }

  // ---- objects

  lemma ObjectIs(c: string, p: nat, depth: nat)
    requires p < |c| && ParseObject(c, p, depth).Parsed?
    ensures depth < NESTING_LIMIT && Skip(c, p + 1) < |c|
    ensures var f := Skip(c, p + 1);
            if c[f] == '}' then ParseObject(c, p, depth) == Parsed(Object(NoMember), f + 1)
            else
              && ParseMembers(c, f - 1, depth + 1).Parsed?
              && var r := ParseMembers(c, f - 1, depth + 1);
                 r.off < |c| && c[r.off] == '}' && ParseObject(c, p, depth) == Parsed(Object(r.value), r.off + 1)
  {
    hide ParseMembers, Skip;
  }

  lemma MembersAre(c: string, off: nat, depth: nat)
    requires off < |c| && ParseMembers(c, off, depth).Parsed?
    ensures off + 1 < |c| && ParseText(c, Skip(c, off + 1)).Parsed?
    ensures var key := ParseText(c, Skip(c, off + 1));
            var colon := Skip(c, key.off);
            && colon < |c| && c[colon] == ':' && ParseValue(c, Skip(c, colon + 1), depth).Parsed?
            && var v := ParseValue(c, Skip(c, colon + 1), depth);
               var z := Skip(c, v.off);
               if z < |c| && c[z] == ',' then
                 && ParseMembers(c, z, depth).Parsed?
                 && var r := ParseMembers(c, z, depth);
                    ParseMembers(c, off, depth) == Parsed(Member(key.value, v.value, r.value), r.off)
               else ParseMembers(c, off, depth) == Parsed(Member(key.value, v.value, NoMember), z)
  {
    hide ParseValue, Skip, ParseText;
  }

  lemma FieldDoc(fs: Fields, depth: nat)
    requires fs.Field? && Blanks(fs.before) && StrOk(fs.key) && Blanks(fs.mid) && Blanks(fs.gap) && DocOk(fs.head)
    requires Blanks(fs.after) && FieldsOk(fs.next)
    requires Fits(TreeOf(fs.head), depth) && MembersFit(MembersOf(fs.next), depth)
    ensures FieldsOk(fs) && MembersFit(MembersOf(fs), depth)
    ensures MembersOf(fs) == Member(StrValue(fs.key), TreeOf(fs.head), MembersOf(fs.next))
  {
    hide Blanks, DocOk, Fits, TreeOf, StrOk, StrValue;
  }

  lemma NoFieldDoc(depth: nat)
    ensures FieldsOk(NoField) && MembersOf(NoField) == NoMember && MembersFit(NoMember, depth)
  {
  }

  lemma CommaField(c: string, z: nat, fs: Fields, p: nat)
    requires fs.Field? && fs.next.Field? && z < p <= |c| && c[z] == ',' && fs.next.before == c[z + 1..p]
    requires Stands(c, p, FieldsText(fs.next))
    ensures Stands(c, z, FieldTail(fs)) && |FieldTail(fs)| == p - z + |FieldsText(fs.next)|
  {
    hide Stands, FieldsText;
    SliceStands(c, z + 1, p);
    OneStands(c, z);
    StandsSplit(c, z + 1, fs.next.before, FieldsText(fs.next));
    StandsSplit(c, z, ",", fs.next.before + FieldsText(fs.next));
  }

  lemma FieldText(fs: Fields)
    requires fs.Field?
    ensures FieldsText(fs)
         == StrText(fs.key) + (fs.mid + (":" + (fs.gap + (Written(fs.head) + (fs.after + FieldTail(fs))))))
  {
    hide StrText, Written;
  }

  lemma FieldStands(c: string, p: nat, k: nat, colon: nat, v: nat, q: nat, z: nat, fs: Fields)
    requires fs.Field? && p <= k <= colon < v <= q <= z <= |c| && c[colon] == ':'
    requires Stands(c, p, StrText(fs.key)) && k == p + |StrText(fs.key)| && fs.mid == c[k..colon]
    requires fs.gap == c[colon + 1..v] && Stands(c, v, Written(fs.head)) && q == v + |Written(fs.head)|
    requires fs.after == c[q..z] && Stands(c, z, FieldTail(fs))
    ensures Stands(c, p, FieldsText(fs)) && |FieldsText(fs)| == z - p + |FieldTail(fs)|
  {
    hide *;
    FieldText(fs);
    SliceStands(c, k, colon);
    OneStands(c, colon);
    SliceStands(c, colon + 1, v);
    SliceStands(c, q, z);
    var t6 := fs.after + FieldTail(fs);
    var t5 := Written(fs.head) + t6;
    var t4 := fs.gap + t5;
    var t3 := ":" + t4;
    StandsSplit(c, q, fs.after, FieldTail(fs));
    StandsSplit(c, v, Written(fs.head), t6);
    StandsSplit(c, colon + 1, fs.gap, t5);
    StandsSplit(c, colon, ":", t4);
    StandsSplit(c, k, fs.mid, t3);
    StandsSplit(c, p, StrText(fs.key), fs.mid + t3);
  }

  lemma {:induction false} MembersSpelt(c: string, off: nat, depth: nat) returns (fs: Fields)
    requires off < |c| && ParseMembers(c, off, depth).Parsed?
    requires ParseMembers(c, off, depth).off < |c| && c[ParseMembers(c, off, depth).off] == '}'
    ensures fs.Field? && FieldsOk(fs) && MembersFit(MembersOf(fs), depth)
    ensures var p := Skip(c, off + 1);
            && off < p < |c| && c[p] as int > 32 && fs.before == c[off + 1..p] && Stands(c, p, FieldsText(fs))
            && ParseMembers(c, off, depth) == Parsed(MembersOf(fs), p + |FieldsText(fs)|)
    decreases |c| - off, 0
  {
    hide *;
    MembersAre(c, off, depth);
    var p := Skip(c, off + 1);
    InkFacts(',');
    SkipOnward(c, off + 1);
    var key := TextSpelt(c, p);
    TextIs(c, p);
    Skipped(c, off + 1);
    var k := p + |StrText(key)|;
    var colon := Skip(c, k);
    StandsBound(c, p, StrText(key));
    SkipOnward(c, k);
    Skipped(c, k);
    var v := Skip(c, colon + 1);
    ValueStarts(c, v, depth);
    SkipOnward(c, colon + 1);
    Skipped(c, colon + 1);
    var d := ValueSpelt(c, v, depth);
    var q := v + |Written(d)|;
    StandsBound(c, v, Written(d));
    var z := Skip(c, q);
    SkipOnward(c, q);
    Skipped(c, q);
    var next := NoField;
    NoFieldDoc(depth);
    if c[z] == ',' {
      next := MembersSpelt(c, z, depth);
    }
    fs := Field(c[off + 1..p], key, c[k..colon], c[colon + 1..v], d, c[q..z], next);
    FieldDoc(fs, depth);
    if c[z] == ',' {
      CommaField(c, z, fs, Skip(c, z + 1));
    } else {
      FieldTailEmpty(fs);
      NothingStands(c, z);
    }
    FieldStands(c, p, k, colon, v, q, z, fs);
  }

  lemma RecordDoc(blank: string, fs: Fields, depth: nat)
    requires depth < NESTING_LIMIT && Blanks(blank) && FieldsOk(fs) && MembersFit(MembersOf(fs), depth + 1)
    ensures var d := Record(blank, fs); DocOk(d) && TreeOf(d) == Object(MembersOf(fs)) && Fits(TreeOf(d), depth)
  {
    hide Blanks, FieldsOk, MembersOf, MembersFit;
  }

  lemma RecordStands(c: string, p: nat, f: nat, e: nat, d: Doc, lead: string, rest: string)
    requires d.Record? && p < f <= e < |c| && c[p] == '{' && c[e] == '}'
    requires lead == if d.fields.NoField? then d.blank else d.fields.before
    requires rest == if d.fields.NoField? then "" else FieldsText(d.fields)
    requires lead == c[p + 1..f] && Stands(c, f, rest) && e == f + |rest|
    ensures Stands(c, p, Written(d)) && p + |Written(d)| == e + 1
  {
    hide *;
    RecordShape(d, lead, rest);
    SliceStands(c, p + 1, f);
    OneStands(c, p);
    OneStands(c, e);
    StandsSplit(c, f, rest, "}");
    StandsSplit(c, p + 1, lead, rest + "}");
    StandsSplit(c, p, "{", lead + (rest + "}"));
  }

  lemma FieldFrom(fs: Fields, before: string)
    requires fs.Field? && FieldsOk(fs) && Blanks(before)
    ensures var t := fs.(before := before);
            FieldsOk(t) && MembersOf(t) == MembersOf(fs) && FieldsText(t) == FieldsText(fs)
  {
    hide Blanks, DocOk, TreeOf, Written, StrOk, StrText, StrValue;
  }

  lemma RecordSpelt(c: string, p: nat, depth: nat) returns (d: Doc)
    requires p < |c| && c[p] == '{' && ParseObject(c, p, depth).Parsed?
    ensures DocOk(d) && Fits(TreeOf(d), depth) && Stands(c, p, Written(d))
    ensures ParseObject(c, p, depth) == Parsed(TreeOf(d), p + |Written(d)|)
    decreases |c| - p, 1
  {
    hide *;
    ObjectIs(c, p, depth);
    var f := Skip(c, p + 1);
    InkFacts('}');
    SkipOnward(c, p + 1);
    if c[f] == '}' {
      Skipped(c, p + 1);
      d := Record(c[p + 1..f], NoField);
      NoFieldDoc(depth + 1);
      RecordDoc(c[p + 1..f], NoField, depth);
      NothingStands(c, f);
      RecordStands(c, p, f, f, d, c[p + 1..f], "");
    } else {
      var fs := MembersSpelt(c, f - 1, depth + 1);
      InkStays(c, p + 1);
      Skipped(c, p + 1);
      var e := f + |FieldsText(fs)|;
      d := Record("", fs.(before := c[p + 1..f]));
      FieldFrom(fs, c[p + 1..f]);
      NoBlanks();
      RecordDoc("", fs.(before := c[p + 1..f]), depth);
      RecordStands(c, p, f, e, d, c[p + 1..f], FieldsText(fs));
    }
  }

  // ---- whole texts

  lemma ParseIs(c: string)
    requires Parse(c, true).Parsed?
    ensures c != "" && SkipBom(c) <= |c| && ParseValue(c, Skip(c, SkipBom(c)), 0).Parsed?
    ensures var v := ParseValue(c, Skip(c, SkipBom(c)), 0);
            var end := Skip(c, v.off);
            end < |c| && c[end] as int == 0 && Parse(c, true) == Parsed(v.value, end)
    ensures SkipBom(c) == 0 || (SkipBom(c) == 3 && c[..3] == BOM)
  {
    hide ParseValue, Skip;
  }

  // Skipping that ends on no ink went to the last character.
  lemma SkippedAll(c: string, off: nat)
    requires off <= |c| && Skip(c, off) < |c| && c[Skip(c, off)] as int <= 32
    ensures Skip(c, off) == |c| - 1 && off < |c| && Blanks(c[off..|c| - 1])
  {
    InkBlank(c, off);
    InkThen(c, off);
    hide FirstInk;
    var n := |c| - 1;
    forall i | 0 <= i < n - off
      ensures c[off..n][i] as int <= 32
    {
      assert c[off..n][i] == c[off + i];
    }
  }

  /** Whatever is accepted as a whole text is a text of the grammar. */
  lemma ParsedIsSpelt(text: string) returns (d: Doc, mark: bool, before: string, after: string)
    requires Parse(text + [0 as char], true).Parsed?
    ensures Spells(text, d, mark, before, after) && Fits(TreeOf(d), 0)
    ensures Parse(text + [0 as char], true) == Parsed(TreeOf(d), |text|)
  {
    hide *;
    var c := text + [0 as char];
    ParseIs(c);
    var m := SkipBom(c);
    mark := m == 3;
    var p := Skip(c, m);
    ValueStarts(c, p, 0);
    SkipOnward(c, m);
    Skipped(c, m);
    before := c[m..p];
    d := ValueSpelt(c, p, 0);
    var q := p + |Written(d)|;
    StandsBound(c, p, Written(d));
    SkippedAll(c, q);
    after := c[q..|text|];
    StandsAt(c, p, Written(d));
    Pieces(c, text, m, p, q);
    SpellsBy(text, d, mark, before, after);
  }

  lemma Pieces(c: string, text: string, m: nat, p: nat, q: nat)
    requires c == text + [0 as char] && m <= p <= q <= |text|
    ensures text == c[..m] + (c[m..p] + (c[p..q] + c[q..|text|]))
  {
  }

  lemma SpellsBy(text: string, d: Doc, mark: bool, before: string, after: string)
    requires DocOk(d) && Blanks(before) && Blanks(after)
    requires text == (if mark then BOM else "") + (before + (Written(d) + after))
    ensures Spells(text, d, mark, before, after)
  {
    hide DocOk, Blanks, Written;
  }

  predicate SpellsTree(text: string, d: Doc, mark: bool, before: string, after: string, j: Json) {
    Spells(text, d, mark, before, after) && TreeOf(d) == j
  }

  // The text is spelt by the grammar and stands for j.
  ghost predicate Means(text: string, j: Json) {
    exists d, mark, before, after :: SpellsTree(text, d, mark, before, after, j)
  }

  lemma TreeSpelt(text: string, d: Doc, mark: bool, before: string, after: string, j: Json)
    ensures SpellsTree(text, d, mark, before, after, j) <==>
              Spells(text, d, mark, before, after) && DocOk(d) && TreeOf(d) == j
  {
    hide TreeOf, Written, Blanks, DocOk;
  }

  /** The parser accepts exactly the texts of the grammar that are nested at most 1000
      deep, and answers the tree that the text stands for. */
  lemma AcceptsExactly(text: string, j: Json)
    ensures Parse(text + [0 as char], true) == Parsed(j, |text|) <==> Means(text, j) && Fits(j, 0)
    ensures Parse(text + [0 as char], true).Parsed? ==> Parse(text + [0 as char], true).off == |text|
  {
    hide Parse, SpellsTree, TreeOf, Fits, DocOk, Spells;
    var r := Parse(text + [0 as char], true);
    if r.Parsed? {
      var d, mark, before, after := ParsedIsSpelt(text);
      SpellsIs(text, d, mark, before, after);
      TreeSpelt(text, d, mark, before, after, TreeOf(d));
      assert r == Parsed(TreeOf(d), |text|);
      assert Means(text, TreeOf(d));
    }
    if Means(text, j) && Fits(j, 0) {
      var d, mark, before, after :| SpellsTree(text, d, mark, before, after, j);
      TreeSpelt(text, d, mark, before, after, j);
      TextParses(text, d, mark, before, after);
    }
  }
}
