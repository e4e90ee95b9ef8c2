/** The UTF-16 literals of a string against RFC 8259 section 7, RFC 2781 section 2
    and RFC 3629 sections 3 and 4.

    `ReadUtf8` reads UTF-8 independently of the encoder, and `ScalarAt` reads an
    escape independently of the decoder. */
module JsonUtf {
  import opened Basics
  import opened JsonTree
  import opened JsonParse
  import opened JsonText

  // A Unicode scalar value
  predicate Scalar(cp: int) {
    0 <= cp <= 0x10_ffff && !(0xd800 <= cp <= 0xdfff)
  }

  // ---- UTF-8, read back

  predicate Trail(c: char) {
    0x80 <= c as int <= 0xbf
  }

  // The scalar value a well-formed sequence encodes, in its shortest form only
  function ReadUtf8(u: string): (r: Option<nat>) {
    if |u| == 1 && u[0] as int < 0x80 then Some(u[0] as int)
    else if |u| == 2 && 0xc2 <= u[0] as int <= 0xdf && Trail(u[1]) then
      Some(64 * (u[0] as int - 0xc0) + (u[1] as int - 0x80))
    else if |u| == 3 && 0xe0 <= u[0] as int <= 0xef && Trail(u[1]) && Trail(u[2]) then
      var cp := 4096 * (u[0] as int - 0xe0) + 64 * (u[1] as int - 0x80) + (u[2] as int - 0x80);
      if cp >= 0x800 && Scalar(cp) then Some(cp) else None
    else if |u| == 4 && 0xf0 <= u[0] as int <= 0xf4 && Trail(u[1]) && Trail(u[2]) && Trail(u[3]) then
      var cp := 262144 * (u[0] as int - 0xf0) + 4096 * (u[1] as int - 0x80)
                + 64 * (u[2] as int - 0x80) + (u[3] as int - 0x80);
      if cp >= 0x1_0000 && Scalar(cp) then Some(cp) else None
    else None
  }

  lemma Groups(cp: nat)
    ensures cp == 64 * (cp / 64) + cp % 64
    ensures cp / 64 == 64 * (cp / 4096) + cp / 64 % 64
    ensures cp / 4096 == 64 * (cp / 262144) + cp / 4096 % 64
  {
  }

  /** What the encoder writes for a scalar value is its well-formed UTF-8. */
  lemma Utf8Back(cp: nat)
    requires Scalar(cp)
    ensures ReadUtf8(Utf8(cp)) == Some(cp)
  {
    Groups(cp);
  }

  lemma FourBack(u: string, a: nat, b: nat, d: nat, e: nat)
    requires |u| == 4 && a < 5 && b < 64 && d < 64 && e < 64
    requires u[0] as int == 0xf0 + a && u[1] as int == 0x80 + b && u[2] as int == 0x80 + d && u[3] as int == 0x80 + e
    requires 0x1_0000 <= 262144 * a + 4096 * b + 64 * d + e <= 0x10_ffff
    ensures Utf8(262144 * a + 4096 * b + 64 * d + e) == u
  {
    FourGroups(a, b, d, e);
    assert u == [u[0], u[1], u[2], u[3]];
  }

  lemma ThreeBack(u: string, b: nat, d: nat, e: nat)
    requires |u| == 3 && b < 16 && d < 64 && e < 64
    requires u[0] as int == 0xe0 + b && u[1] as int == 0x80 + d && u[2] as int == 0x80 + e
    requires 0x800 <= 4096 * b + 64 * d + e
    ensures Utf8(4096 * b + 64 * d + e) == u
  {
    FourGroups(0, b, d, e);
    assert u == [u[0], u[1], u[2]];
  }

  lemma TwoBack(u: string, d: nat, e: nat)
    requires |u| == 2 && 2 <= d < 32 && e < 64
    requires u[0] as int == 0xc0 + d && u[1] as int == 0x80 + e
    ensures Utf8(64 * d + e) == u
  {
    FourGroups(0, 0, d, e);
    assert u == [u[0], u[1]];
  }

  /** Well-formed UTF-8 has no other spelling. */
  lemma Utf8Unique(u: string)
    requires ReadUtf8(u).Some?
    ensures Scalar(ReadUtf8(u).value) && Utf8(ReadUtf8(u).value) == u
  {
    hide Utf8;
    if |u| == 4 {
      FourBack(u, u[0] as int - 0xf0, u[1] as int - 0x80, u[2] as int - 0x80, u[3] as int - 0x80);
    } else if |u| == 3 {
      ThreeBack(u, u[0] as int - 0xe0, u[1] as int - 0x80, u[2] as int - 0x80);
    } else if |u| == 2 {
      TwoBack(u, u[0] as int - 0xc0, u[1] as int - 0x80);
    } else {
      OneBack(u);
    }
  }

  lemma OneBack(u: string)
    requires |u| == 1 && u[0] as int < 0x80
    ensures Utf8(u[0] as int) == u
  {
  }

  lemma FourGroups(a: nat, b: nat, d: nat, e: nat)
    requires b < 64 && d < 64 && e < 64
    ensures var cp := 262144 * a + 4096 * b + 64 * d + e;
            cp / 262144 == a && cp / 4096 % 64 == b && cp / 64 % 64 == d && cp % 64 == e
            && cp / 4096 == 64 * a + b && cp / 64 == 4096 * a + 64 * b + d
  {
  }

  // ---- the literals of RFC 8259

  predicate HexDigits(t: string) {
    forall i | 0 <= i < |t| :: HexValue(t[i]) >= 0
  }

  // The value of four hexadecimal digits
  function Unit(t: string): (r: nat)
    requires |t| == 4 && HexDigits(t)
    ensures r < 0x1_0000
  {
    ((HexValue(t[0]) * 16 + HexValue(t[1])) * 16 + HexValue(t[2])) * 16 + HexValue(t[3])
  }

  // The code unit spelt at offset i, if one is
  function UnitAt(c: string, i: nat, end: nat): (r: Option<nat>)
    requires i <= end <= |c|
  {
    if end - i >= 6 && c[i] == '\\' && c[i + 1] == 'u' && HexDigits(c[i + 2..i + 6])
    then Some(Unit(c[i + 2..i + 6])) else None
  }

  // The scalar value of one code unit or of a surrogate pair, and the length of its spelling
  function ScalarAt(c: string, i: nat, end: nat): (r: Option<(nat, nat)>)
    requires i <= end <= |c|
    ensures r.Some? ==> Scalar(r.value.0)
  {
    match UnitAt(c, i, end)
    case None => None
    case Some(first) =>
      if first < 0xd800 || first > 0xdfff then Some((first, 6))
      else if first >= 0xdc00 then None
      else
        match UnitAt(c, i + 6, end)
        case None => None
        case Some(second) =>
          if 0xdc00 <= second <= 0xdfff
          then Some((0x1_0000 + (first - 0xd800) * 0x400 + (second - 0xdc00), 12))
          else None
  }

  lemma HexIsUnit(t: string)
    requires |t| == 4
    ensures Hex4(t) == if HexDigits(t) then Unit(t) else 0
  {
    hide HexValue;
  }

  lemma UnitByHex(c: string, i: nat, end: nat)
    requires i + 6 <= end <= |c| && c[i] == '\\' && c[i + 1] == 'u'
    ensures var t := c[i + 2..i + 6];
            Hex4(t) == match UnitAt(c, i, end) case Some(n) => n case None => 0
  {
    HexIsUnit(c[i + 2..i + 6]);
    hide Hex4, HexDigits, Unit;
  }

  lemma Surrogates(first: nat, second: nat)
    requires 0xd800 <= first <= 0xdbff && 0xdc00 <= second <= 0xdfff
    ensures 0x1_0000 + (first % 1024) * 1024 + second % 1024
         == 0x1_0000 + (first - 0xd800) * 0x400 + (second - 0xdc00) <= 0x10_ffff
  {
  }

  // What an escape stands for: the UTF-8 of the scalar value it spells
  function Standard(c: string, i: nat, end: nat): Option<(string, nat)>
    requires i <= end <= |c|
  {
    match ScalarAt(c, i, end)
    case None => None
    case Some((cp, n)) => Some((Utf8(cp), n))
  }

  lemma LiteralByScalar(c: string, i: nat, end: nat)
    requires i + 2 <= end <= |c| && c[i] == '\\' && c[i + 1] == 'u'
    requires end - i >= 6 ==> HexDigits(c[i + 2..i + 6])
    ensures Literal(c, i, end) == Standard(c, i, end)
  {
    if end - i >= 6 {
      UnitByHex(c, i, end);
      var first := Hex4(c[i + 2..i + 6]);
      if 0xd800 <= first <= 0xdbff && end - i >= 12 && c[i + 6] == '\\' && c[i + 7] == 'u' {
        assert c[i + 6 + 2..i + 6 + 6] == c[i + 8..i + 12];
        UnitByHex(c, i + 6, end);
        var second := Hex4(c[i + 8..i + 12]);
        hide Hex4, Utf8, HexDigits, Unit, UnitAt;
        if 0xdc00 <= second <= 0xdfff {
          Surrogates(first, second);
        }
      }
    }
  }

  /** The decoder meets RFC 8259 on an escape that starts with `\u` exactly when the
      four characters after it are hexadecimal digits or there is no room for four.
      Otherwise it takes the escape for the character U+0000. */
  lemma LiteralMeetsTheStandard(c: string, i: nat, end: nat)
    requires i + 2 <= end <= |c| && c[i] == '\\' && c[i + 1] == 'u'
    ensures Literal(c, i, end) == Standard(c, i, end) <==> end - i < 6 || HexDigits(c[i + 2..i + 6])
    ensures end - i >= 6 && !HexDigits(c[i + 2..i + 6]) ==> Literal(c, i, end) == Some(([0 as char], 6))
  {
    if end - i < 6 || HexDigits(c[i + 2..i + 6]) {
      LiteralByScalar(c, i, end);
    } else {
      HexIsUnit(c[i + 2..i + 6]);
    }
  }

  lemma BadHexDecodes(c: string)
    requires c == "\"\\u12G4z\"" && Literal(c, 1, 8) == Some(([0 as char], 6))
    ensures Decode(c, 1, 8) == Some([0 as char, 'z'])
  {
    hide Literal;
    assert Decode(c, 8, 8) == Some("");
    assert [c[7]] + "" == ['z'];
    assert [0 as char] + ['z'] == [0 as char, 'z'];
  }

  /** An escape with a character that is no hexadecimal digit is accepted. */
  lemma BadHexIsAccepted()
    ensures Parse("\"\\u12G4z\"", false) == Parsed(Text(""), 9)
    ensures ScalarAt("\"\\u12G4z\"", 1, 8) == None
  {
    var c := "\"\\u12G4z\"";
    assert HexValue('G') < 0;
    var t := c[3..7];
    assert t[2] == 'G';
    assert Hex4(t) == 0;
    assert Literal(c, 1, 8) == Some(([0 as char], 6));
    BadHexDecodes(c);
    assert CloseQuote(c, 1) == Some(8) by {
      assert CloseQuote(c, 7) == CloseQuote(c, 8) == Some(8);
      assert CloseQuote(c, 5) == CloseQuote(c, 6) == CloseQuote(c, 7);
      assert CloseQuote(c, 3) == CloseQuote(c, 4) == CloseQuote(c, 5);
    }
    assert ParseText(c, 0) == Parsed("", 9);
    WordStarts(c, 0);
    ValueBy(c, 0, 0);
    assert Skip(c, SkipBom(c)) == 0 by {
      assert c[..3][0] == c[0];
    }
  }

  /** Every escape the decoder accepts becomes one well-formed UTF-8 sequence. */
  lemma EscapesAreWellFormed(c: string, i: nat, end: nat)
    requires i + 2 <= end <= |c| && c[i] == '\\' && c[i + 1] == 'u' && Literal(c, i, end).Some?
    ensures ReadUtf8(Literal(c, i, end).value.0).Some?
  {
    LiteralMeetsTheStandard(c, i, end);
    hide Literal, HexDigits;
    if end - i < 6 || HexDigits(c[i + 2..i + 6]) {
      var (cp, _) := ScalarAt(c, i, end).value;
      Utf8Back(cp);
    }
  }

  // ---- every scalar value has a spelling

  // A code unit as the escape of RFC 8259
  function Spell(n: nat): (s: string)
    requires n < 0x1_0000
    ensures |s| == 6
  {
    "\\u" + [HexDigit(n / 4096), HexDigit(n / 256 % 16), HexDigit(n / 16 % 16), HexDigit(n % 16)]
  }

  // RFC 2781 section 2.1
  function Utf16(cp: nat): string
    requires Scalar(cp)
  {
    if cp < 0x1_0000 then Spell(cp)
    else Spell(0xd800 + (cp - 0x1_0000) / 0x400) + Spell(0xdc00 + (cp - 0x1_0000) % 0x400)
  }

  lemma FourDigits(n: nat)
    requires n < 0x1_0000
    ensures ((n / 4096 * 16 + n / 256 % 16) * 16 + n / 16 % 16) * 16 + n % 16 == n
  {
    assert n / 256 == n / 4096 * 16 + n / 256 % 16;
    assert n / 16 == n / 256 * 16 + n / 16 % 16;
  }

  lemma UnitBack(c: string, i: nat, end: nat, n: nat)
    requires n < 0x1_0000 && Stands(c, i, Spell(n)) && i + 6 <= end <= |c|
    ensures UnitAt(c, i, end) == Some(n)
  {
    var s := Spell(n);
    assert c[i..i + 6] == s;
    var t := c[i + 2..i + 6];
    assert t == s[2..6];
    assert c[i] == c[i..i + 6][0] && c[i + 1] == c[i..i + 6][1];
    HexPlain(n / 4096);
    HexPlain(n / 256 % 16);
    HexPlain(n / 16 % 16);
    HexPlain(n % 16);
    FourDigits(n);
    hide HexDigit, HexValue;
    assert HexDigits(t);
  }

  /** The spelling of any scalar value, in the basic plane or beyond it, decodes to
      the UTF-8 of that value. */
  lemma SpellingDecodes(c: string, i: nat, end: nat, cp: nat)
    requires Scalar(cp) && Stands(c, i, Utf16(cp)) && i + |Utf16(cp)| <= end <= |c|
    ensures Literal(c, i, end).Some?
    ensures ReadUtf8(Literal(c, i, end).value.0) == Some(cp) && Literal(c, i, end).value.1 == |Utf16(cp)|
  {
    hide Stands, Spell;
    Utf8Back(cp);
    if cp < 0x1_0000 {
      SpellingStarts(c, i, cp);
      UnitBack(c, i, end, cp);
    } else {
      var (a, b) := (0xd800 + (cp - 0x1_0000) / 0x400, 0xdc00 + (cp - 0x1_0000) % 0x400);
      StandsSplit(c, i, Spell(a), Spell(b));
      SpellingStarts(c, i, a);
      UnitBack(c, i, end, a);
      UnitBack(c, i + 6, end, b);
    }
    assert ScalarAt(c, i, end) == Some((cp, |Utf16(cp)|));
    hide UnitAt, ScalarAt, Utf16, ReadUtf8, Literal, Utf8;
    UnitHex(c, i, end);
    LiteralByScalar(c, i, end);
  }

  lemma SpellingStarts(c: string, i: nat, n: nat)
    requires n < 0x1_0000 && Stands(c, i, Spell(n))
    ensures i + 6 <= |c| && c[i] == '\\' && c[i + 1] == 'u'
  {
    StandsChar(c, i, Spell(n), 0);
    StandsChar(c, i, Spell(n), 1);
  }

  lemma UnitHex(c: string, i: nat, end: nat)
    requires i + 6 <= end <= |c| && ScalarAt(c, i, end).Some?
    ensures HexDigits(c[i + 2..i + 6])
  {
  }
}
