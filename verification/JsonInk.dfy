/** What printed text is made of: no zero byte, and the lengths the printer reserves. */
module JsonInk {
  import opened Basics
  import opened JsonTree

  // No zero byte
  predicate NoZero(s: string) {
    forall i | 0 <= i < |s| :: s[i] as int != 0
  }

  lemma NoZeroJoin(a: string, b: string)
    requires NoZero(a) && NoZero(b)
    ensures NoZero(a + b)
  {
  }

  // ---- strings, one more character at a time

  lemma {:induction false} EscapeSnoc(s: string, ch: char)
    ensures EscapeText(s + [ch]) == EscapeText(s) + EscapeChar(ch)
  {
    hide EscapeChar;
    if s == "" {
      assert s + [ch] == [ch] && [ch][1..] == "";
    } else {
      assert (s + [ch])[1..] == s[1..] + [ch];
      EscapeSnoc(s[1..], ch);
    }
  }

  // The text of the first n characters
  function Begun(s: string, n: nat): string
    requires n <= |s|
  {
    EscapeText(s[..n])
  }

  lemma BegunNext(s: string, n: nat)
    requires n < |s|
    ensures Begun(s, n + 1) == Begun(s, n) + EscapeChar(s[n])
  {
    assert s[..n + 1] == s[..n] + [s[n]];
    EscapeSnoc(s[..n], s[n]);
  }

  lemma BegunAll(s: string)
    ensures Begun(s, |s|) == EscapeText(s) && Begun(s, 0) == ""
  {
    assert s[..|s|] == s;
  }

  // The characters that print as more than themselves
  function Extra(ch: char): nat
    requires 0 < ch as int < 256
  {
    if ch == '\"' || ch == '\\' || ch as int == 8 || ch as int == 12 || ch == '\n' || ch == '\r' || ch == '\t' then 1
    else if ch as int < 32 then 5
    else 0
  }

  lemma EscapeLength(ch: char)
    requires 0 < ch as int < 256
    ensures |EscapeChar(ch)| == 1 + Extra(ch)
    ensures Extra(ch) == 0 <==> EscapeChar(ch) == [ch]
    ensures NoZero(EscapeChar(ch))
  {
  }

  lemma {:induction false} EscapeNoZero(s: string)
    requires Bytes8(s)
    ensures NoZero(EscapeText(s))
  {
    hide EscapeChar;
    if s != "" {
      EscapeLength(s[0]);
      EscapeNoZero(s[1..]);
      NoZeroJoin(EscapeChar(s[0]), EscapeText(s[1..]));
    }
  }

  lemma QuotedNoZero(s: string)
    requires Bytes8(s)
    ensures NoZero(Quoted(s))
  {
    EscapeNoZero(s);
    hide EscapeText;
    NoZeroJoin("\"", EscapeText(s));
    NoZeroJoin("\"" + EscapeText(s), "\"");
  }

  // ---- whole trees

  lemma {:induction false} DigitsNoZero(n: nat)
    ensures NoZero(Digits(n))
  {
    if n >= 10 {
      DigitsNoZero(n / 10);
    }
  }

  lemma {:induction false} RenderNoZero(j: Json, format: bool, depth: nat)
    requires Plain(j)
    ensures NoZero(Render(j, format, depth)) && |Render(j, format, depth)| > 0
    decreases j
  {
    match j
    case Number(v) => DigitsNoZero(if v < 0 then -v else v);
    case Text(s) => QuotedNoZero(s);
    case Array(items) => ItemsNoZero(items, format, depth + 1);
    case Object(members) =>
      MembersNoZero(members, format, depth + 1);
      ObjectNoZero(RenderMembers(members, format, depth + 1), format, depth);
    case _ =>
  }

  lemma ObjectNoZero(r: string, format: bool, depth: nat)
    requires NoZero(r)
    ensures NoZero((if format then "{\n" else "{") + r + (if format then Tabs(depth) else "") + "}")
  {
    var a, t := if format then "{\n" else "{", if format then Tabs(depth) else "";
    NoZeroJoin(a, r);
    NoZeroJoin(a + r, t);
  }

  lemma {:induction false} ItemsNoZero(items: Items, format: bool, depth: nat)
    requires ItemsPlain(items)
    ensures NoZero(RenderItems(items, format, depth))
    decreases items
  {
    match items
    case NoItem =>
    case Item(head, next) =>
      RenderNoZero(head, format, depth);
      ItemsNoZero(next, format, depth);
      hide Render;
      NoZeroJoin(Comma(format), RenderItems(next, format, depth));
  }

  lemma {:induction false} MembersNoZero(members: Members, format: bool, depth: nat)
    requires MembersPlain(members)
    ensures NoZero(RenderMembers(members, format, depth))
    decreases members
  {
    match members
    case NoMember =>
    case Member(key, head, next) =>
      RenderNoZero(head, format, depth);
      QuotedNoZero(key);
      MembersNoZero(next, format, depth);
      var (t, k, c, v) := (if format then Tabs(depth) else "", Quoted(key), if format then ":\t" else ":", Render(head, format, depth));
      var (m, n, r) := (if next.Member? then "," else "", if format then "\n" else "", RenderMembers(next, format, depth));
      assert RenderMembers(members, format, depth) == t + k + c + v + m + n + r;
      SevenNoZero(t, k, c, v, m, n, r);
  }

  lemma SevenNoZero(a: string, b: string, c: string, d: string, e: string, f: string, g: string)
    requires NoZero(a) && NoZero(b) && NoZero(c) && NoZero(d) && NoZero(e) && NoZero(f) && NoZero(g)
    ensures NoZero(a + b + c + d + e + f + g)
  {
    NoZeroJoin(a, b);
    NoZeroJoin(a + b, c);
    NoZeroJoin(a + b + c, d);
    NoZeroJoin(a + b + c + d, e);
    NoZeroJoin(a + b + c + d + e, f);
    NoZeroJoin(a + b + c + d + e + f, g);
  }
}
