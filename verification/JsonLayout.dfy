/** What is printed, choice by choice: the document of RFC 8259 that the printer writes
    for a tree, compact or laid out over lines, and how deep a tree may be. */
module JsonLayout {
  import opened JsonTree
  import opened JsonParse
  import opened JsonGrammar
  import opened JsonText
  import opened JsonAccepts
  import opened JsonSound

  // ---- the layout

  function LowDigit(n: nat): char
    requires n < 16
  {
    "0123456789abcdef"[n]
  }

  // Quote, backslash and five controls have a letter; the other controls are spelt out.
  function PieceFor(c: char): Piece
    requires 0 < c as int < 256
  {
    if c == '\"' || c == '\\' then Short(c)
    else if c as int >= 0x20 then Raw(c)
    else if c as int == 8 then Short('b')
    else if c as int == 9 then Short('t')
    else if c as int == 10 then Short('n')
    else if c as int == 12 then Short('f')
    else if c as int == 13 then Short('r')
    else Escaped("00" + [LowDigit(c as int / 16), LowDigit(c as int % 16)])
  }

  function PiecesFor(s: string): (ps: seq<Piece>)
    requires Bytes8(s)
    ensures |ps| == |s|
  {
    seq(|s|, i requires 0 <= i < |s| => PieceFor(s[i]))
  }

  function StrFor(s: string): Str
    requires Bytes8(s)
  {
    Str(PiecesText(PiecesFor(s)), PiecesFor(s))
  }

  // A new line with so many tabs, or nothing in the compact form
  function Line(format: bool, tabs: nat): string {
    if format then "\n" + seq(tabs, _ => '\t') else ""
  }

  function Size(v: int): nat {
    if v < 0 then -v else v
  }

  // Arrays stay on one line; each member of an object starts a line of its own.
  function DocFor(j: Json, format: bool, depth: nat): Doc
    requires Plain(j)
  {
    match j
    case Null => Nothing
    case False => No
    case True => Yes
    case Number(v) => Count(v < 0, Digits(Size(v)))
    case Text(s) => Words(StrFor(s))
    case Array(items) => List("", ElementsFor(items, "", format, depth + 1))
    case Object(members) => Record(Line(format, depth), FieldsFor(members, format, depth + 1))
  }

  function ElementsFor(items: Items, before: string, format: bool, depth: nat): (es: Elements)
    requires ItemsPlain(items)
    ensures es.Element? <==> items.Item?
    ensures es.Element? ==> es.before == before
  {
    match items
    case NoItem => NoElement
    case Item(head, next) =>
      Element(before, DocFor(head, format, depth), "", ElementsFor(next, if format then " " else "", format, depth))
  }

  function FieldsFor(ms: Members, format: bool, depth: nat): (fs: Fields)
    requires MembersPlain(ms) && depth > 0
    ensures fs.Field? <==> ms.Member?
    ensures fs.Field? ==> fs.before == Line(format, depth)
  {
    match ms
    case NoMember => NoField
    case Member(key, head, next) =>
      Field(Line(format, depth), StrFor(key), "", if format then "\t" else "", DocFor(head, format, depth),
            if next.Member? then "" else Line(format, depth - 1), FieldsFor(next, format, depth))
  }

  // ---- strings

  lemma HexChars(n: nat)
    requires n < 16
    ensures HexDigit(n) == LowDigit(n) && Nibble(LowDigit(n)) == n
  {
  }

  lemma PieceWritten(c: char)
    requires 0 < c as int < 256
    ensures PieceText(PieceFor(c)) == EscapeChar(c)
    ensures StrictPiece(PieceFor(c)) && PieceOk(PieceFor(c)) && PieceBytes(PieceFor(c)) == [c]
  {
    if PieceFor(c).Escaped? {
      ControlWritten(c as int);
    }
  }

  lemma ControlWritten(n: nat)
    requires n < 0x20
    ensures var hex := "00" + [LowDigit(n / 16), LowDigit(n % 16)];
            && "\\u" + hex == ControlEscape(n) && |hex| == 4 && AllHex(hex) && HexNumber(hex) == n
            && Utf8(n) == [n as char]
  {
    HexChars(n / 16);
    HexChars(n % 16);
    hide LowDigit, HexDigit;
    var hex := "00" + [LowDigit(n / 16), LowDigit(n % 16)];
    assert hex[0] == '0' && hex[1] == '0' && hex[2] == LowDigit(n / 16) && hex[3] == LowDigit(n % 16);
    assert Nibble('0') == 0;
  }

  lemma PiecesHead(s: string)
    requires s != "" && Bytes8(s)
    ensures Bytes8(s[1..]) && PiecesFor(s) == [PieceFor(s[0])] + PiecesFor(s[1..])
  {
    hide PieceFor;
  }

  lemma {:induction false} PiecesWritten(s: string)
    requires Bytes8(s)
    ensures PiecesText(PiecesFor(s)) == EscapeText(s)
    ensures PiecesOk(PiecesFor(s)) && PiecesBytes(PiecesFor(s)) == s
    ensures forall i | 0 <= i < |s| :: StrictPiece(PiecesFor(s)[i])
  {
    hide *;
    NoPieces();
    if s == "" {
      NoText(s);
    } else {
      PiecesHead(s);
      BytesHead(s);
      PieceWritten(s[0]);
      PiecesWritten(s[1..]);
      EscapeHead(s);
      PiecesCons(PieceFor(s[0]), PiecesFor(s[1..]));
      StrictCons(PieceFor(s[0]), PiecesFor(s[1..]));
    }
  }

  lemma NoText(s: string)
    requires s == "" && Bytes8(s)
    ensures PiecesFor(s) == [] && EscapeText(s) == ""
  {
  }

  lemma StrictCons(p: Piece, ps: seq<Piece>)
    requires StrictPiece(p) && forall i | 0 <= i < |ps| :: StrictPiece(ps[i])
    ensures forall i | 0 <= i < |[p] + ps| :: StrictPiece(([p] + ps)[i])
  {
    hide StrictPiece;
  }

  lemma StrWritten(s: string)
    requires Bytes8(s)
    ensures StrictStr(StrFor(s)) && StrOk(StrFor(s)) && StrText(StrFor(s)) == Quoted(s) && StrValue(StrFor(s)) == s
  {
    PiecesWritten(s);
    AllOfIt(s);
    hide StrictPiece, PiecesText, PiecesBytes, CString, PiecesFor, EscapeText, Scanned, PieceOk, StrOk;
    StrictStrOk(StrFor(s));
    StrIs(StrFor(s));
  }

  // ---- numbers

  lemma {:induction false} DigitsStrict(n: nat)
    ensures var t := Digits(n);
            && (forall i | 0 <= i < |t| :: '0' <= t[i] <= '9') && DigitsValue(t) == n
            && (n > 0 ==> t[0] != '0') && (n == 0 ==> t == "0")
  {
    if n < 10 {
      assert [Digit(n)][..0] == "";
      assert DigitsValue("") == 0;
    } else {
      DigitsStrict(n / 10);
      var t := Digits(n);
      assert t[..|t| - 1] == Digits(n / 10) && t[|t| - 1] == Digit(n % 10);
      OneDigit(n % 10);
    }
  }

  lemma CountWritten(v: int)
    requires -0x8000_0000 <= v <= 0x7fff_ffff
    ensures var d := Count(v < 0, Digits(Size(v)));
            Strict(d) && DocOk(d) && TreeOf(d) == Number(v) && Written(d) == Decimal(v)
  {
    DigitsStrict(Size(v));
    hide Digits, DigitsValue;
    assert "" + Digits(Size(v)) == Digits(Size(v));
  }

  // ---- blanks

  lemma LineSpace(format: bool, tabs: nat)
    ensures Space8259(Line(format, tabs)) && Line(format, tabs) == Newline(format) + Indent(format, tabs)
    ensures Space8259("") && Space8259(" ") && Space8259("\t")
  {
  }

  lemma LineBlanks(s: string)
    requires Space8259(s)
    ensures Blanks(s)
  {
  }

  // ---- documents

  predicate Printed(d: Doc, j: Json, format: bool, depth: nat) {
    Strict(d) && DocOk(d) && TreeOf(d) == j && Written(d) == Render(j, format, depth)
  }

  lemma CommaIs(format: bool)
    ensures Comma(format) == "," + (if format then " " else "")
  {
  }

  lemma ElementsUnfold(items: Items, before: string, format: bool, depth: nat)
    requires ItemsPlain(items)
    ensures items.Item? ==>
              && Plain(items.head) && ItemsPlain(items.next)
              && ElementsFor(items, before, format, depth)
                 == Element(before, DocFor(items.head, format, depth), "",
                            ElementsFor(items.next, if format then " " else "", format, depth))
    ensures items.NoItem? ==>
              ElementsFor(items, before, format, depth) == NoElement && RenderItems(items, format, depth) == ""
  {
    hide DocFor, Plain;
  }

  lemma NextWritten(format: bool, es: Elements, rest: string)
    requires es.Element? ==> es.before == (if format then " " else "") && ElementsText(es) == rest
    ensures es.Element? ==> "," + (es.before + ElementsText(es)) == Comma(format) + rest
  {
    hide ElementsText;
    CommaIs(format);
  }

  lemma ElementText(es: Elements)
    requires es.Element?
    ensures ElementsText(es) == Written(es.head) + (es.after + ElementTail(es))
    ensures es.next.Element? ==> ElementTail(es) == "," + (es.next.before + ElementsText(es.next))
    ensures es.next.NoElement? ==> ElementTail(es) == ""
  {
    hide Written;
  }

  lemma {:induction false} ItemsPrinted(items: Items, before: string, format: bool, depth: nat)
    requires ItemsPlain(items) && Space8259(before)
    ensures var es := ElementsFor(items, before, format, depth);
            && StrictElements(es) && ElementsOk(es) && ItemsOf(es) == items
            && ElementsText(es) == RenderItems(items, format, depth)
    decreases items, 0
  {
    hide *;
    ElementsUnfold(items, before, format, depth);
    LineSpace(format, 0);
    NoElementDoc(0);
    if items.NoItem? {
      NoElementText();
    } else {
      var gap := if format then " " else "";
      var next := ElementsFor(items.next, gap, format, depth);
      var d := DocFor(items.head, format, depth);
      ValuePrinted(items.head, format, depth);
      PrintedIs(d, items.head, format, depth);
      ItemsPrinted(items.next, gap, format, depth);
      var es := Element(before, d, "", next);
      LineBlanks(before);
      NoBlanks();
      ElementStrict(es);
      ElementText(es);
      NextWritten(format, next, RenderItems(items.next, format, depth));
      ItemsShape(items, format, depth);
      Plus(Render(items.head, format, depth), ElementTail(es));
      ItemsShapeEnd(items, format, depth);
    }
  }

  lemma Plus(h: string, t: string)
    ensures h + ("" + t) == h + t
  {
  }

  lemma ItemsShapeEnd(items: Items, format: bool, depth: nat)
    requires items.Item?
    ensures items.next.NoItem? ==> RenderItems(items, format, depth) == Render(items.head, format, depth) + ""
  {
    hide Render;
  }

  lemma NoElementText()
    ensures ElementsText(NoElement) == "" && StrictElements(NoElement)
  {
  }

  lemma ElementStrict(es: Elements)
    requires es.Element? && Space8259(es.before) && Strict(es.head) && Space8259(es.after) && StrictElements(es.next)
    requires Blanks(es.before) && DocOk(es.head) && Blanks(es.after) && ElementsOk(es.next)
    ensures StrictElements(es) && ElementsOk(es) && ItemsOf(es) == Item(TreeOf(es.head), ItemsOf(es.next))
  {
    hide Strict, DocOk, TreeOf, Blanks, Space8259;
  }

  lemma PrintedIs(d: Doc, j: Json, format: bool, depth: nat)
    ensures Printed(d, j, format, depth) <==>
              Strict(d) && DocOk(d) && TreeOf(d) == j && Written(d) == Render(j, format, depth)
  {
    hide Strict, DocOk, TreeOf, Written, Render;
  }

  lemma FieldsUnfold(ms: Members, format: bool, depth: nat)
    requires MembersPlain(ms) && depth > 0
    ensures ms.Member? ==>
              && Bytes8(ms.key) && Plain(ms.head) && MembersPlain(ms.next)
              && FieldsFor(ms, format, depth)
                 == Field(Line(format, depth), StrFor(ms.key), "", if format then "\t" else "",
                          DocFor(ms.head, format, depth), if ms.next.Member? then "" else Line(format, depth - 1),
                          FieldsFor(ms.next, format, depth))
    ensures ms.NoMember? ==> FieldsFor(ms, format, depth) == NoField && RenderMembers(ms, format, depth) == ""
  {
    hide DocFor, StrFor, Line, Plain, Bytes8;
  }

  lemma FieldStrict(fs: Fields)
    requires fs.Field? && Space8259(fs.before) && StrictStr(fs.key) && Space8259(fs.mid) && Space8259(fs.gap)
    requires Strict(fs.head) && Space8259(fs.after) && StrictFields(fs.next)
    requires StrOk(fs.key) && DocOk(fs.head) && FieldsOk(fs.next)
    ensures StrictFields(fs) && FieldsOk(fs)
    ensures MembersOf(fs) == Member(StrValue(fs.key), TreeOf(fs.head), MembersOf(fs.next))
  {
    hide Strict, DocOk, TreeOf, Space8259, StrictStr, StrOk, StrValue;
    LineBlanks(fs.before);
    LineBlanks(fs.mid);
    LineBlanks(fs.gap);
    LineBlanks(fs.after);
  }

  lemma NoFieldText()
    ensures FieldsText(NoField) == "" && StrictFields(NoField)
  {
  }

  // The text of a member, with the tabs in front of it
  lemma FieldRegroup(indent: string, key: string, gap: string, v: string, after: string, tail: string)
    ensures indent + (key + ("" + (":" + (gap + (v + (after + tail))))))
         == indent + key + (":" + gap) + v + (after + tail)
  {
  }

  lemma ColonIs(format: bool)
    ensures Colon(format) == ":" + (if format then "\t" else "")
  {
  }

  lemma MembersUnfold(ms: Members, format: bool, depth: nat)
    requires ms.Member?
    ensures RenderMembers(ms, format, depth)
         == Indent(format, depth) + Quoted(ms.key) + Colon(format) + Render(ms.head, format, depth)
            + (if ms.next.Member? then "," else "") + Newline(format) + RenderMembers(ms.next, format, depth)
  {
    hide Indent, Quoted, Colon, Render, Newline;
  }

  lemma NextJoin(a: string, nl: string, indent: string, next: string, more: string, last: string)
    requires indent + next == more + last
    ensures a + ("" + ("," + ((nl + indent) + next))) == a + "," + nl + more + last
  {
    assert (nl + indent) + next == nl + (indent + next);
    assert nl + (more + last) == nl + more + last;
  }

  lemma LastJoin(a: string, nl: string, last: string)
    ensures a + ((nl + last) + "") == a + "" + nl + "" + last
  {
  }

  lemma {:induction false} MembersPrinted(ms: Members, format: bool, depth: nat)
    requires MembersPlain(ms) && ms.Member? && depth > 0
    ensures var fs := FieldsFor(ms, format, depth);
            && StrictFields(fs) && FieldsOk(fs) && MembersOf(fs) == ms
            && Indent(format, depth) + FieldsText(fs) == RenderMembers(ms, format, depth) + Indent(format, depth - 1)
    decreases ms, 0
  {
    hide *;
    FieldsUnfold(ms, format, depth);
    LineSpace(format, depth);
    LineSpace(format, depth - 1);
    var d := DocFor(ms.head, format, depth);
    ValuePrinted(ms.head, format, depth);
    PrintedIs(d, ms.head, format, depth);
    StrWritten(ms.key);
    var next := FieldsFor(ms.next, format, depth);
    var after := if ms.next.Member? then "" else Line(format, depth - 1);
    var gap := if format then "\t" else "";
    var fs := Field(Line(format, depth), StrFor(ms.key), "", gap, d, after, next);
    FieldText(fs);
    ColonIs(format);
    MembersUnfold(ms, format, depth);
    var indent := Indent(format, depth);
    var a := indent + Quoted(ms.key) + Colon(format) + Render(ms.head, format, depth);
    FieldRegroup(indent, Quoted(ms.key), gap, Render(ms.head, format, depth), after, FieldTail(fs));
    NoFieldDoc(0);
    NoFieldText();
    if ms.next.Member? {
      MembersPrinted(ms.next, format, depth);
      FieldTailIs(fs);
      NextJoin(a, Newline(format), indent, FieldsText(next), RenderMembers(ms.next, format, depth),
               Indent(format, depth - 1));
    } else {
      FieldsUnfold(ms.next, format, depth);
      FieldTailEmpty(fs);
      LastJoin(a, Newline(format), Indent(format, depth - 1));
      NoMore(ms.next);
    }
    FieldStrict(fs);
  }

  lemma NoMore(ms: Members)
    requires ms.NoMember?
    ensures ms == NoMember
  {
  }

  lemma FieldTailIs(fs: Fields)
    requires fs.Field? && fs.next.Field?
    ensures FieldTail(fs) == "," + (fs.next.before + FieldsText(fs.next))
  {
    hide FieldsText;
  }

  lemma ScalarPrinted(j: Json, format: bool, depth: nat)
    requires Plain(j) && !j.Array? && !j.Object?
    ensures Printed(DocFor(j, format, depth), j, format, depth)
  {
    match j
    case Number(v) => CountWritten(v);
    case Text(s) =>
      StrWritten(s);
      hide StrFor, StrOk, StrictStr, StrValue, StrText, Quoted;
    case _ =>
  }

  lemma ArrayPrinted(j: Json, format: bool, depth: nat)
    requires Plain(j) && j.Array?
    ensures Printed(DocFor(j, format, depth), j, format, depth)
    decreases j, 1
  {
    hide *;
    ArrayUnfold(j, format, depth);
    NoBlanks();
    LineSpace(format, 0);
    ItemsPrinted(j.items, "", format, depth + 1);
    var es := ElementsFor(j.items, "", format, depth + 1);
    ElementsUnfold(j.items, "", format, depth + 1);
    NoElementText();
    ListPrinted(es, j.items, format, depth);
    PrintedIs(List("", es), j, format, depth);
  }

  lemma ArrayUnfold(j: Json, format: bool, depth: nat)
    requires Plain(j) && j.Array?
    ensures ItemsPlain(j.items) && DocFor(j, format, depth) == List("", ElementsFor(j.items, "", format, depth + 1))
  {
    hide ElementsFor, ItemsPlain;
  }

  lemma ListPrinted(es: Elements, items: Items, format: bool, depth: nat)
    requires StrictElements(es) && ElementsOk(es) && ItemsOf(es) == items && (es.Element? ==> es.before == "")
    requires ElementsText(es) == RenderItems(items, format, depth + 1)
    ensures var d := List("", es);
            Strict(d) && DocOk(d) && TreeOf(d) == Array(items) && Written(d) == Render(Array(items), format, depth)
  {
    hide StrictElements, ElementsOk, RenderItems;
    NoneSpelt(es);
    var r := ElementsText(es);
    assert "" + r == r;
    hide ElementsText, ItemsOf;
  }

  lemma NoneSpelt(es: Elements)
    ensures es.NoElement? ==> ElementsText(es) == ""
  {
  }

  lemma ObjectUnfold(j: Json, format: bool, depth: nat)
    requires Plain(j) && j.Object?
    ensures MembersPlain(j.members)
    ensures DocFor(j, format, depth) == Record(Line(format, depth), FieldsFor(j.members, format, depth + 1))
  {
    hide FieldsFor, MembersPlain, Line;
  }

  lemma RecordIs(blank: string, fs: Fields)
    requires Space8259(blank) && StrictFields(fs) && FieldsOk(fs)
    ensures var d := Record(blank, fs); Strict(d) && DocOk(d) && TreeOf(d) == Object(MembersOf(fs))
  {
    LineBlanks(blank);
    hide StrictFields, FieldsOk, Space8259, Blanks, MembersOf;
  }

  lemma OpeningIs(format: bool)
    ensures Opening(format) == "{" + Newline(format)
  {
  }

  lemma RecordText(nl: string, inner: string, text: string, more: string, last: string)
    requires inner + text == more + last
    ensures "{" + ((nl + inner) + text) + "}" == "{" + nl + more + last + "}"
  {
    assert (nl + inner) + text == nl + (inner + text);
  }

  lemma RenderObject(ms: Members, format: bool, depth: nat)
    ensures Render(Object(ms), format, depth)
         == Opening(format) + RenderMembers(ms, format, depth + 1) + Indent(format, depth) + "}"
  {
    hide RenderMembers, Indent, Opening;
  }

  lemma WrittenRecord(d: Doc)
    requires d.Record?
    ensures Written(d) == "{" + (if d.fields.NoField? then d.blank else d.fields.before + FieldsText(d.fields)) + "}"
  {
    hide FieldsText;
  }

  lemma ObjectPrinted(j: Json, format: bool, depth: nat)
    requires Plain(j) && j.Object?
    ensures Printed(DocFor(j, format, depth), j, format, depth)
    decreases j, 1
  {
    hide *;
    ObjectUnfold(j, format, depth);
    var ms := j.members;
    var k := depth + 1;
    var fs := FieldsFor(ms, format, k);
    var d := Record(Line(format, depth), fs);
    LineSpace(format, depth);
    LineSpace(format, k);
    OpeningIs(format);
    RenderObject(ms, format, depth);
    WrittenRecord(d);
    FieldsUnfold(ms, format, k);
    NoFieldDoc(0);
    NoFieldText();
    if ms.Member? {
      MembersPrinted(ms, format, k);
      RecordText(Newline(format), Indent(format, k), FieldsText(fs), RenderMembers(ms, format, k),
                 Indent(format, depth));
    } else {
      NoMore(ms);
      EmptyRecord(Newline(format), Indent(format, depth));
    }
    RecordIs(Line(format, depth), fs);
    PrintedIs(d, j, format, depth);
  }

  lemma EmptyRecord(nl: string, indent: string)
    ensures "{" + (nl + indent) + "}" == "{" + nl + "" + indent + "}"
  {
  }

  /** The printed text of a tree is that of a document of RFC 8259, with the layout and
      the spellings of `DocFor` and with that tree. */
  lemma {:induction false} ValuePrinted(j: Json, format: bool, depth: nat)
    requires Plain(j)
    ensures Printed(DocFor(j, format, depth), j, format, depth)
    decreases j, 2
  {
    hide *;
    if j.Array? {
      ArrayPrinted(j, format, depth);
    } else if j.Object? {
      ObjectPrinted(j, format, depth);
    } else {
      ScalarPrinted(j, format, depth);
    }
  }

  // ---- depth

  function Max(a: nat, b: nat): nat {
    if a < b then b else a
  }

  // How many arrays and objects lie inside each other
  function Depth(j: Json): nat {
    match j
    case Array(items) => 1 + ItemsDepth(items)
    case Object(members) => 1 + MembersDepth(members)
    case _ => 0
  }

  function ItemsDepth(items: Items): nat {
    match items
    case NoItem => 0
    case Item(head, next) => Max(Depth(head), ItemsDepth(next))
  }

  function MembersDepth(ms: Members): nat {
    match ms
    case NoMember => 0
    case Member(_, head, next) => Max(Depth(head), MembersDepth(next))
  }

  lemma {:induction false} FitsByDepth(j: Json, depth: nat)
    requires depth <= 1000
    ensures Fits(j, depth) <==> depth + Depth(j) <= 1000
    decreases j, 1
  {
    match j
    case Array(items) =>
      if depth < 1000 {
        ItemsByDepth(items, depth + 1);
      }
    case Object(members) =>
      if depth < 1000 {
        MembersByDepth(members, depth + 1);
      }
    case _ =>
  }

  lemma {:induction false} ItemsByDepth(items: Items, depth: nat)
    requires depth <= 1000
    ensures ItemsFit(items, depth) <==> depth + ItemsDepth(items) <= 1000
    decreases items, 0
  {
    if items.Item? {
      FitsByDepth(items.head, depth);
      ItemsByDepth(items.next, depth);
    }
  }

  lemma {:induction false} MembersByDepth(ms: Members, depth: nat)
    requires depth <= 1000
    ensures MembersFit(ms, depth) <==> depth + MembersDepth(ms) <= 1000
    decreases ms, 0
  {
    if ms.Member? {
      FitsByDepth(ms.head, depth);
      MembersByDepth(ms.next, depth);
    }
  }

  /** Acceptance in plain terms: a text of the grammar parses to its tree if and only if at
      most 1000 arrays and objects lie inside each other. */
  lemma AcceptedByDepth(text: string, j: Json)
    ensures Parse(text + [0 as char], true) == Parsed(j, |text|) <==> Means(text, j) && Depth(j) <= 1000
  {
    hide *;
    AcceptsExactly(text, j);
    FitsByDepth(j, 0);
  }
}
