/** JSON texts with every choice of spelling, and the trees they stand for.

    A document says how each value is spelt: the white space around the six structural
    characters, and each character of a string raw, as a two-character escape, or in
    UTF-16 escapes. `Written` is its text and `TreeOf` its tree. The grammar is that of
    RFC 8259 made wider at four places, which `Strict` closes again. */
module JsonGrammar {
  import opened JsonTree
  import opened JsonParse

  // ---- characters of a string, section 7

  datatype Piece =
    | Raw(ch: char)
    | Short(letter: char)
    | Escaped(hex: string)
    | Pair(high: string, low: string)

  // The value of a hexadecimal digit, or -1
  function Nibble(c: char): (n: int)
    ensures -1 <= n <= 15
  {
    if '0' <= c <= '9' then c as int - 48
    else if 'a' <= c <= 'f' then c as int - 97 + 10
    else if 'A' <= c <= 'F' then c as int - 65 + 10
    else -1
  }

  predicate AllHex(t: string) {
    forall i | 0 <= i < |t| :: Nibble(t[i]) >= 0
  }

  // Four characters that are not all digits count as zero.
  function HexNumber(t: string): (n: nat)
    requires |t| == 4
    ensures n < 0x1_0000
  {
    if AllHex(t) then ((Nibble(t[0]) * 16 + Nibble(t[1])) * 16 + Nibble(t[2])) * 16 + Nibble(t[3]) else 0
  }

  const LETTERS: string := "bfnrt\"\\/"

  function ShortFor(letter: char): char {
    match letter
    case 'b' => 8 as char
    case 'f' => 12 as char
    case 'n' => 10 as char
    case 'r' => 13 as char
    case 't' => 9 as char
    case _ => letter
  }

  predicate PieceOk(p: Piece) {
    match p
    case Raw(ch) => ch != '\\'
    case Short(letter) => letter in LETTERS
    case Escaped(hex) => |hex| == 4 && !(0xd800 <= HexNumber(hex) <= 0xdfff)
    case Pair(high, low) =>
      && |high| == 4 && |low| == 4
      && 0xd800 <= HexNumber(high) <= 0xdbff && 0xdc00 <= HexNumber(low) <= 0xdfff
  }

  predicate PiecesOk(ps: seq<Piece>) {
    forall i | 0 <= i < |ps| :: PieceOk(ps[i])
  }

  function PieceText(p: Piece): (s: string)
    ensures |s| > 0
  {
    match p
    case Raw(ch) => [ch]
    case Short(letter) => "\\" + [letter]
    case Escaped(hex) => "\\u" + hex
    case Pair(high, low) => "\\u" + high + "\\u" + low
  }

  // The scalar value of a surrogate pair, section 2.2 of RFC 2781
  function PairValue(high: nat, low: nat): (cp: nat)
    requires 0xd800 <= high <= 0xdbff && 0xdc00 <= low <= 0xdfff
    ensures cp <= 0x10_ffff
  {
    0x1_0000 + (high - 0xd800) * 0x400 + (low - 0xdc00)
  }

  // The bytes a piece stands for
  function PieceBytes(p: Piece): string
    requires PieceOk(p)
  {
    match p
    case Raw(ch) => [ch]
    case Short(letter) => [ShortFor(letter)]
    case Escaped(hex) => Utf8(HexNumber(hex))
    case Pair(high, low) => Utf8(PairValue(HexNumber(high), HexNumber(low)))
  }

  function PiecesText(ps: seq<Piece>): string {
    if ps == [] then "" else PieceText(ps[0]) + PiecesText(ps[1..])
  }

  function PiecesBytes(ps: seq<Piece>): string
    requires PiecesOk(ps)
  {
    if ps == [] then "" else PieceBytes(ps[0]) + PiecesBytes(ps[1..])
  }

  // ---- strings

  // What stands between the quotes, and the pieces it is read as
  datatype Str = Str(content: string, pieces: seq<Piece>)

  // No quote but behind a backslash, and no backslash without a character behind it
  predicate Scanned(t: string)
    decreases |t|
  {
    || t == ""
    || (t[0] != '\"' && t[0] != '\\' && Scanned(t[1..]))
    || (t[0] == '\\' && |t| >= 2 && Scanned(t[2..]))
  }

  // The pieces fill the content. Where the last character of a wrong escape is a
  // backslash, a backslash that ends the content is read with the closing quote.
  predicate Fills(s: Str) {
    || PiecesText(s.pieces) == s.content
    || (PiecesText(s.pieces) == s.content + "\"" && s.pieces != [] && s.pieces[|s.pieces| - 1] == Short('\"'))
  }

  predicate StrOk(s: Str) {
    PiecesOk(s.pieces) && Scanned(s.content) && Fills(s)
  }

  // A C string ends at its first zero byte.
  function StrValue(s: Str): string
    requires StrOk(s)
  {
    CString(PiecesBytes(s.pieces))
  }

  function StrText(s: Str): string {
    "\"" + s.content + "\""
  }

  // ---- documents

  datatype Doc =
    | Nothing
    | No
    | Yes
    | Count(minus: bool, digits: string)
    | Words(str: Str)
    | List(blank: string, elements: Elements)
    | Record(blank: string, fields: Fields)

  datatype Elements = NoElement | Element(before: string, head: Doc, after: string, next: Elements)

  datatype Fields = NoField | Field(before: string, key: Str, mid: string, gap: string,
                                    head: Doc, after: string, next: Fields)

  // White space: any character up to the blank
  predicate Blanks(s: string) {
    forall i | 0 <= i < |s| :: s[i] as int <= 32
  }

  function DigitsValue(t: string): nat {
    if t == "" then 0
    else
      var d := t[|t| - 1] as int - 48;
      10 * DigitsValue(t[..|t| - 1]) + if 0 <= d <= 9 then d else 0
  }

  function CountOf(minus: bool, digits: string): int {
    var n: int := DigitsValue(digits);
    if minus then 0 - n else n
  }

  predicate CountOk(minus: bool, digits: string) {
    && digits != "" && (forall i | 0 <= i < |digits| :: '0' <= digits[i] <= '9')
    && -0x8000_0000 <= CountOf(minus, digits) <= 0x7fff_ffff
  }

  predicate DocOk(d: Doc) {
    match d
    case Count(minus, digits) => CountOk(minus, digits)
    case Words(s) => StrOk(s)
    case List(blank, elements) => Blanks(blank) && ElementsOk(elements)
    case Record(blank, fields) => Blanks(blank) && FieldsOk(fields)
    case _ => true
  }

  predicate ElementsOk(es: Elements) {
    match es
    case NoElement => true
    case Element(before, head, after, next) => Blanks(before) && DocOk(head) && Blanks(after) && ElementsOk(next)
  }

  predicate FieldsOk(fs: Fields) {
    match fs
    case NoField => true
    case Field(before, key, mid, gap, head, after, next) =>
      && Blanks(before) && StrOk(key) && Blanks(mid) && Blanks(gap) && DocOk(head) && Blanks(after) && FieldsOk(next)
  }

  function TreeOf(d: Doc): Json
    requires DocOk(d)
  {
    match d
    case Nothing => Null
    case No => False
    case Yes => True
    case Count(minus, digits) => Number(CountOf(minus, digits))
    case Words(s) => Text(StrValue(s))
    case List(_, elements) => Array(ItemsOf(elements))
    case Record(_, fields) => Object(MembersOf(fields))
  }

  function ItemsOf(es: Elements): (r: Items)
    requires ElementsOk(es)
    ensures r.Item? <==> es.Element?
  {
    match es
    case NoElement => NoItem
    case Element(_, head, _, next) => Item(TreeOf(head), ItemsOf(next))
  }

  function MembersOf(fs: Fields): (r: Members)
    requires FieldsOk(fs)
    ensures r.Member? <==> fs.Field?
  {
    match fs
    case NoField => NoMember
    case Field(_, key, _, _, head, _, next) => Member(StrValue(key), TreeOf(head), MembersOf(next))
  }

  // ---- their text, sections 2 to 6

  function Written(d: Doc): string {
    match d
    case Nothing => "null"
    case No => "false"
    case Yes => "true"
    case Count(minus, digits) => (if minus then "-" else "") + digits
    case Words(s) => StrText(s)
    case List(blank, elements) =>
      "[" + (if elements.NoElement? then blank else elements.before + ElementsText(elements)) + "]"
    case Record(blank, fields) =>
      "{" + (if fields.NoField? then blank else fields.before + FieldsText(fields)) + "}"
  }

  // From the first element on, behind the white space in front of it
  function ElementsText(es: Elements): string {
    match es
    case NoElement => ""
    case Element(_, head, after, next) =>
      Written(head) + (after + (if next.Element? then "," + (next.before + ElementsText(next)) else ""))
  }

  function FieldsText(fs: Fields): string {
    match fs
    case NoField => ""
    case Field(_, key, mid, gap, head, after, next) =>
      StrText(key) + (mid + (":" + (gap + (Written(head) + (after +
      (if next.Field? then "," + (next.before + FieldsText(next)) else ""))))))
  }

  const BOM: string := [0xef as char, 0xbb as char, 0xbf as char]

  // A text: possibly a byte order mark, white space, a value, and white space
  predicate Spells(text: string, d: Doc, mark: bool, before: string, after: string) {
    && DocOk(d) && Blanks(before) && Blanks(after)
    && text == (if mark then BOM else "") + (before + (Written(d) + after))
  }

  // ---- RFC 8259 itself

  // Space, tab, line feed, carriage return
  predicate Space8259(s: string) {
    forall i | 0 <= i < |s| :: s[i] == ' ' || s[i] == '\t' || s[i] == '\n' || s[i] == '\r'
  }

  predicate StrictPiece(p: Piece) {
    match p
    case Raw(ch) => ch as int >= 0x20 && ch != '\"' && ch != '\\'
    case Short(letter) => letter in LETTERS
    case Escaped(hex) => |hex| == 4 && AllHex(hex) && !(0xd800 <= HexNumber(hex) <= 0xdfff)
    case Pair(high, low) => PieceOk(p)
  }

  predicate StrictStr(s: Str) {
    s.content == PiecesText(s.pieces) && forall i | 0 <= i < |s.pieces| :: StrictPiece(s.pieces[i])
  }

  // A document of RFC 8259 whose numbers are integers of 32 bits
  predicate Strict(d: Doc) {
    match d
    case Count(minus, digits) => CountOk(minus, digits) && (digits[0] == '0' ==> |digits| == 1)
    case Words(s) => StrictStr(s)
    case List(blank, elements) => Space8259(blank) && StrictElements(elements)
    case Record(blank, fields) => Space8259(blank) && StrictFields(fields)
    case _ => true
  }

  predicate StrictElements(es: Elements) {
    match es
    case NoElement => true
    case Element(before, head, after, next) =>
      Space8259(before) && Strict(head) && Space8259(after) && StrictElements(next)
  }

  predicate StrictFields(fs: Fields) {
    match fs
    case NoField => true
    case Field(before, key, mid, gap, head, after, next) =>
      && Space8259(before) && StrictStr(key) && Space8259(mid) && Space8259(gap)
      && Strict(head) && Space8259(after) && StrictFields(next)
  }

  // ---- the narrow grammar is part of the wide one

  lemma {:induction false} ScannedJoin(a: string, b: string)
    requires Scanned(a) && Scanned(b)
    ensures Scanned(a + b)
    decreases |a|
  {
    if a == "" {
      assert a + b == b;
    } else if a[0] == '\\' {
      assert (a + b)[2..] == a[2..] + b;
      ScannedJoin(a[2..], b);
    } else {
      assert (a + b)[1..] == a[1..] + b;
      ScannedJoin(a[1..], b);
    }
  }

  lemma HexScanned(t: string)
    requires |t| == 4 && AllHex(t)
    ensures Scanned("\\u" + t)
  {
    var s := "\\u" + t;
    assert s[2..] == t;
    assert t[1..][1..] == t[2..] && t[2..][1..] == t[3..] && t[3..][1..] == "";
    assert Scanned(t[3..]) && Scanned(t[2..]) && Scanned(t[1..]) && Scanned(t);
  }

  lemma PairHex(p: Piece)
    requires p.Pair? && PieceOk(p)
    ensures AllHex(p.high) && AllHex(p.low)
  {
  }

  lemma PieceScanned(p: Piece)
    requires StrictPiece(p)
    ensures PieceOk(p) && Scanned(PieceText(p))
  {
    match p
    case Raw(ch) => assert [ch][1..] == "";
    case Short(letter) => assert ("\\" + [letter])[2..] == "";
    case Escaped(hex) => HexScanned(hex);
    case Pair(high, low) =>
      PairHex(p);
      HexScanned(high);
      HexScanned(low);
      ScannedJoin("\\u" + high, "\\u" + low);
      assert "\\u" + high + "\\u" + low == ("\\u" + high) + ("\\u" + low);
  }

  lemma {:induction false} PiecesScanned(ps: seq<Piece>)
    requires forall i | 0 <= i < |ps| :: StrictPiece(ps[i])
    ensures PiecesOk(ps) && Scanned(PiecesText(ps))
  {
    hide StrictPiece, PieceOk, PieceText;
    if ps != [] {
      PieceScanned(ps[0]);
      PiecesScanned(ps[1..]);
      forall i | 0 <= i < |ps|
        ensures PieceOk(ps[i])
      {
        if i > 0 {
          assert ps[i] == ps[1..][i - 1];
        }
      }
      ScannedJoin(PieceText(ps[0]), PiecesText(ps[1..]));
    }
  }

  lemma StrictStrOk(s: Str)
    requires StrictStr(s)
    ensures StrOk(s)
  {
    hide StrictPiece, PieceOk, Scanned, PiecesText;
    PiecesScanned(s.pieces);
  }

  lemma {:induction false} StrictOk(d: Doc)
    requires Strict(d)
    ensures DocOk(d)
    decreases d, 1
  {
    hide StrictStr, StrOk, CountOk, DocOk;
    DocCases(d);
    match d
    case Words(s) => StrictStrOk(s);
    case List(blank, elements) => StrictElementsOk(elements);
    case Record(blank, fields) => StrictFieldsOk(fields);
    case _ =>
  }

  // What makes each kind of document right
  lemma DocCases(d: Doc)
    ensures d.Count? ==> (DocOk(d) <==> CountOk(d.minus, d.digits))
    ensures d.Words? ==> (DocOk(d) <==> StrOk(d.str))
    ensures d.List? ==> (DocOk(d) <==> Blanks(d.blank) && ElementsOk(d.elements))
    ensures d.Record? ==> (DocOk(d) <==> Blanks(d.blank) && FieldsOk(d.fields))
    ensures d.Nothing? || d.No? || d.Yes? ==> DocOk(d)
  {
    hide CountOk, StrOk, Blanks, ElementsOk, FieldsOk;
  }

  lemma {:induction false} StrictElementsOk(es: Elements)
    requires StrictElements(es)
    ensures ElementsOk(es)
    decreases es, 0
  {
    hide Strict, DocOk;
    if es.Element? {
      StrictOk(es.head);
      StrictElementsOk(es.next);
    }
  }

  lemma {:induction false} StrictFieldsOk(fs: Fields)
    requires StrictFields(fs)
    ensures FieldsOk(fs)
    decreases fs, 0
  {
    hide Strict, DocOk, StrictStr, StrOk;
    if fs.Field? {
      StrictStrOk(fs.key);
      StrictOk(fs.head);
      StrictFieldsOk(fs.next);
    }
  }
}
