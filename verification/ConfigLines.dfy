/** The line grammar of the configuration file: what `rss_config_load` binds a
    line to, and the offsets `classify_line` reports for the same line. */
module ConfigLines {
  import opened CText

  const MAX_LINE: nat := 512
  const MAX_SECN: nat := 64
  const MAX_KEY: nat := 64
  const MAX_VAL: nat := 256

  // ---- text as lines

  // The pieces between newlines; a file that ends without one has a last line too.
  function Lines(text: string): seq<string>
    decreases |text|
  {
    if text == "" then []
    else
      var i := IndexOf(text, '\n');
      if i == |text| then [text] else [text[..i]] + Lines(text[i + 1..])
  }

  function Unlines(lines: seq<string>): string {
    if lines == [] then "" else lines[0] + "\n" + Unlines(lines[1..])
  }

  predicate OneLine(s: string) {
    '\n' !in s
  }

  predicate AllOneLine(lines: seq<string>) {
    forall i | 0 <= i < |lines| :: OneLine(lines[i])
  }

  lemma LinesCons(first: string, rest: string)
    requires OneLine(first)
    ensures Lines(first + "\n" + rest) == [first] + Lines(rest)
  {
    var t := first + "\n" + rest;
    assert forall i | 0 <= i < |first| :: t[i] == first[i] && first[i] in first;
    IndexIs(t, '\n', |first|);
    assert t[..|first|] == first;
    assert t[|first| + 1..] == rest;
  }

  lemma {:induction false} LinesOfUnlines(lines: seq<string>)
    requires AllOneLine(lines)
    ensures Lines(Unlines(lines)) == lines
  {
    if lines != [] {
      LinesOfUnlines(lines[1..]);
      LinesCons(lines[0], Unlines(lines[1..]));
    }
  }

  lemma {:induction false} UnlinesConcat(a: seq<string>, b: seq<string>)
    ensures Unlines(a + b) == Unlines(a) + Unlines(b)
  {
    if a == [] {
      assert a + b == b;
    } else {
      assert (a + b)[0] == a[0] && (a + b)[1..] == a[1..] + b;
      UnlinesConcat(a[1..], b);
      assert a[0] + "\n" + (Unlines(a[1..]) + Unlines(b)) == a[0] + "\n" + Unlines(a[1..]) + Unlines(b);
    }
  }

  lemma {:induction false} LinesAreLines(text: string)
    ensures AllOneLine(Lines(text))
    decreases |text|
  {
    if text != "" {
      var i := IndexOf(text, '\n');
      IndexMin(text, '\n');
      if i < |text| {
        LinesAreLines(text[i + 1..]);
      }
    }
  }

  // ---- values and inline comments

  // find_inline_comment: the first '#' with a blank before it, or |v|
  function FindComment(v: string): (r: nat)
    ensures r <= |v|
    ensures r < |v| ==> CommentAt(v, r)
  {
    CommentFrom(v, 0)
  }

  predicate CommentAt(v: string, i: int) {
    1 <= i < |v| && v[i] == '#' && IsBlank(v[i - 1])
  }

  function CommentFrom(v: string, i: nat): (r: nat)
    requires i <= |v|
    ensures i <= r <= |v|
    ensures r < |v| ==> CommentAt(v, r)
    decreases |v| - i
  {
    if i == |v| || CommentAt(v, i) then i else CommentFrom(v, i + 1)
  }

  lemma {:induction false} CommentFromMin(v: string, i: nat)
    requires i <= |v|
    ensures forall j | i <= j < CommentFrom(v, i) :: !CommentAt(v, j)
    decreases |v| - i
  {
    if i < |v| && !CommentAt(v, i) {
      CommentFromMin(v, i + 1);
    }
  }

  // Where the run of blanks that ends before index c starts
  function BlankRun(v: string, c: nat): (r: nat)
    requires c <= |v|
    ensures r <= c
    ensures r > 0 ==> !IsBlank(v[r - 1])
  {
    if c > 0 && IsBlank(v[c - 1]) then BlankRun(v, c - 1) else c
  }

  lemma {:induction false} BlankRunBlanks(v: string, c: nat)
    requires c <= |v|
    ensures forall i | BlankRun(v, c) <= i < c :: IsBlank(v[i])
  {
    if c > 0 && IsBlank(v[c - 1]) {
      BlankRunBlanks(v, c - 1);
    }
  }

  // strip_inline_comment
  function StripComment(v: string): string {
    var c := FindComment(v);
    if c == |v| then v
    else
      var e := BlankRun(v, c);
      if e == 0 then v[..1] else v[..e]
  }

  function ValueOf(rest: string): string {
    Trim(StripComment(Trim(rest)))
  }

  // ---- the loader's reading of one line

  datatype Parsed = Inert | Header(sec: string) | Bind(key: string, val: string)

  /** One line as rss_config_load reads it. A key or value longer than its
      buffer is cut when it is stored, not here. */
  function ParseLine(raw: string): Parsed {
    if |raw| >= MAX_LINE then Inert else ParseBody(Trim(raw))
  }

  // The same for a line that has been trimmed
  function ParseBody(s: string): Parsed {
    if s == "" || s[0] == '#' || s[0] == ';' then Inert
    else if s[0] == '[' then
      var e := IndexOf(s, ']');
      if e == |s| then Inert else Header(Clip(Trim(s[1..e]), MAX_SECN - 1))
    else if IndexOf(s, '=') == |s| then Inert
    else
      var key := KeyText(s);
      if key == "" then Inert else Bind(key, ValueOf(AfterEq(s)))
  }

  function KeyText(s: string): string {
    Trim(s[..IndexOf(s, '=')])
  }

  function AfterEq(s: string): string {
    if IndexOf(s, '=') < |s| then s[IndexOf(s, '=') + 1..] else ""
  }

  predicate NonBlank(raw: string) {
    exists i | 0 <= i < |raw| :: !IsSpace(raw[i])
  }

  // Offset just past the key token of a key line
  function KeyEnd(raw: string): (r: nat)
    requires ParseLine(raw).Bind?
  {
    Lead(raw) + |ParseLine(raw).key|
  }

  // Offset of the inline comment with its alignment blanks, or -1
  function ComOff(raw: string): int {
    var c := ComInBody(Trim(raw));
    if c < 0 then -1 else Lead(raw) + c
  }

  function ComInBody(s: string): int {
    var c := ComInRest(AfterEq(s));
    if c < 0 then -1 else IndexOf(s, '=') + 1 + c
  }

  function ComInRest(r: string): int {
    var v := Trim(r);
    var c := FindComment(v);
    if c == |v| then -1 else Lead(r) + BlankRun(v, c)
  }

  // The part of a key line that a rewrite carries over after the value
  function CommentOf(raw: string): string {
    var c := ComOff(raw);
    if 0 <= c <= |raw| then raw[c..] else ""
  }

  // ---- canonical names and values

  predicate GoodKeyText(key: string) {
    key != "" && Trimmed(key) && '=' !in key && key[0] != '[' && key[0] != '#' && key[0] != ';'
  }

  predicate GoodKey(key: string) {
    GoodKeyText(key) && |key| < MAX_KEY && OneLine(key)
  }

  predicate GoodValue(v: string) {
    v != "" && Trimmed(v) && FindComment(v) == |v| && |v| < MAX_VAL && OneLine(v)
  }

  predicate GoodSection(sec: string) {
    Trimmed(sec) && ']' !in sec && |sec| < MAX_SECN && OneLine(sec)
  }

  // Blanks, then '#', then anything
  ghost predicate CommentRun(c: string) {
    exists n :: HashAfterBlanks(c, n)
  }

  predicate HashAfterBlanks(c: string, n: int) {
    1 <= n < |c| && c[n] == '#' && forall i | 0 <= i < n :: IsBlank(c[i])
  }

  // ---- shape lemmas

  lemma CommentIs(v: string, r: nat)
    requires r <= |v|
    requires r < |v| ==> CommentAt(v, r)
    requires forall j | 0 <= j < r :: !CommentAt(v, j)
    ensures FindComment(v) == r
  {
    CommentFromMin(v, 0);
  }

  lemma BlankRunIs(v: string, c: nat, r: nat)
    requires r <= c <= |v|
    requires forall i | r <= i < c :: IsBlank(v[i])
    requires r > 0 ==> !IsBlank(v[r - 1])
    ensures BlankRun(v, c) == r
  {
    BlankRunBlanks(v, c);
  }

  // A value followed by a comment run reads back as the value alone.
  lemma ValueBeforeComment(v: string, d: string)
    requires v != "" && Trimmed(v) && FindComment(v) == |v|
    requires d != "" ==> CommentRun(d)
    ensures FindComment(v + d) < |v + d| <==> d != ""
    ensures d != "" ==> BlankRun(v + d, FindComment(v + d)) == |v|
    ensures StripComment(v + d) == v
  {
    var w := v + d;
    CommentFromMin(v, 0);
    assert forall j | 0 <= j < |v| :: w[j] == v[j];
    assert forall j | 0 <= j < |v| :: CommentAt(w, j) <==> CommentAt(v, j);
    if d == "" {
      assert w == v;
    } else {
      var n :| HashAfterBlanks(d, n);
      assert forall j | 0 <= j < |d| :: w[|v| + j] == d[j];
      forall j | 0 <= j < |v| + n
        ensures !CommentAt(w, j)
      {
        if j >= |v| {
          assert w[j] == d[j - |v|];
        }
      }
      assert w[|v| + n] == '#' && w[|v| + n - 1] == d[n - 1];
      CommentIs(w, |v| + n);
      assert forall i | |v| <= i < |v| + n :: w[i] == d[i - |v|];
      BlankRunIs(w, |v| + n, |v|);
      assert w[..|v|] == v;
    }
  }

  // The printed body of a rebuilt or new key line, white space trimmed
  lemma BodyParses(key: string, v: string, d: string)
    requires GoodKeyText(key)
    requires v != "" && Trimmed(v) && FindComment(v) == |v|
    requires d != "" ==> CommentRun(d) && !IsSpace(d[|d| - 1])
    ensures var s := key + " = " + v + d;
            && Trimmed(s)
            && ParseBody(s) == Bind(key, v)
            && ComInBody(s) == if d == "" then -1 else |key| + 3 + |v|
  {
    var s := key + " = " + v + d;
    BodySplits(key, v, d);
    var w := v + d;
    assert " " + w + "" == AfterEq(s);
    assert w[0] == v[0] && w[|w| - 1] == if d == "" then v[|v| - 1] else d[|d| - 1];
    TrimFrame(" ", w, "");
    ValueBeforeComment(v, d);
    TrimOfTrimmed(v);
  }

  lemma BodySplits(key: string, v: string, d: string)
    requires GoodKeyText(key)
    requires v != "" && Trimmed(v)
    requires d != "" ==> !IsSpace(d[|d| - 1])
    ensures var s := key + " = " + v + d;
            && Trimmed(s) && s[0] == key[0]
            && IndexOf(s, '=') == |key| + 1
            && KeyText(s) == key
            && AfterEq(s) == " " + (v + d)
  {
    var s := key + " = " + v + d;
    var w := v + d;
    assert s == key + (" = " + w) by {
      Assoc3(key + " = ", v, d);
      Assoc3(key, " = ", w);
    }
    assert w[|w| - 1] == if d == "" then v[|v| - 1] else d[|d| - 1];
    FirstEq(key, w);
    assert s[0] == key[0];
    TrimFrame("", key, " ");
  }

  lemma FirstEq(key: string, w: string)
    requires '=' !in key && w != ""
    ensures var s := key + (" = " + w);
            && IndexOf(s, '=') == |key| + 1
            && s[..|key| + 1] == "" + key + " "
            && s[|key| + 2..] == " " + w
            && s[|s| - 1] == w[|w| - 1]
  {
    var s := key + (" = " + w);
    forall i | 0 <= i < |key| + 1
      ensures s[i] != '='
    {
      if i < |key| {
        assert s[i] == key[i] && key[i] in key;
      }
    }
    IndexIs(s, '=', |key| + 1);
  }

  lemma CommentRunSplit(c: string)
    requires c != "" ==> CommentRun(c)
    ensures var d := c[..Past(c)];
            && c == d + c[Past(c)..] && AllSpace(c[Past(c)..])
            && (d == "" <==> c == "")
            && (d != "" ==> CommentRun(d) && !IsSpace(d[|d| - 1]))
  {
    var d := c[..Past(c)];
    PastSpaces(c);
    if c != "" {
      var n :| HashAfterBlanks(c, n);
      PastAfter(c, |c|, n);
      assert HashAfterBlanks(d, n);
    }
  }

  /** Rewriting a key line keeps it readable: whatever white space leads it and
      whatever inline comment it carries over, the loader binds the same key to
      the new value, and the next rewrite finds the same key end and comment. */
  lemma RebuiltParses(ws: string, key: string, v: string, c: string)
    requires AllSpace(ws) && GoodKeyText(key)
    requires v != "" && Trimmed(v) && FindComment(v) == |v|
    requires c != "" ==> CommentRun(c)
    requires |ws + key + " = " + v + c| < MAX_LINE
    ensures var raw := ws + key + " = " + v + c;
            && ParseLine(raw) == Bind(key, v)
            && KeyEnd(raw) == |ws| + |key|
            && ComOff(raw) == if c == "" then -1 else |ws| + |key| + 3 + |v|
  {
    var raw := ws + key + " = " + v + c;
    var d, tail := c[..Past(c)], c[Past(c)..];
    CommentRunSplit(c);
    var s := key + " = " + v + d;
    BodyParses(key, v, d);
    assert raw == ws + s + tail by {
      Regroup(ws, key, " = ", v, d, tail);
    }
    TrimFrame(ws, s, tail);
  }

  lemma NewLineParses(key: string, v: string)
    requires GoodKey(key) && GoodValue(v)
    ensures ParseLine(key + " = " + v) == Bind(key, v)
    ensures KeyEnd(key + " = " + v) == |key|
    ensures ComOff(key + " = " + v) == -1
    ensures OneLine(key + " = " + v)
  {
    hide FindComment, Lead, Past, IndexOf, ParseLine, ComOff, ComInBody, Trim;
    assert "" + key + " = " + v + "" == key + " = " + v;
    RebuiltParses("", key, v, "");
  }

  lemma NewHeaderParses(sec: string)
    requires GoodSection(sec)
    ensures ParseLine("[" + sec + "]") == Header(sec)
    ensures OneLine("[" + sec + "]")
  {
    var s := "[" + sec + "]";
    hide Lead, Past, IndexOf, Trim;
    TrimOfTrimmed(s);
    FirstBracket(sec);
    assert s[1..|sec| + 1] == sec;
    TrimOfTrimmed(sec);
  }

  lemma FirstBracket(sec: string)
    requires ']' !in sec
    ensures IndexOf("[" + sec + "]", ']') == |sec| + 1
  {
    var s := "[" + sec + "]";
    hide IndexOf;
    assert forall i | 1 <= i < |sec| + 1 :: s[i] == sec[i - 1] && sec[i - 1] in sec;
    IndexIs(s, ']', |sec| + 1);
  }

  /** What a key line looks like: leading white space, the key, and after the
      value possibly a comment run that reaches to the end of the line. */
  lemma KeyLineShape(raw: string)
    requires ParseLine(raw).Bind?
    ensures var key := ParseLine(raw).key;
            && GoodKeyText(key) && KeyEnd(raw) <= |raw|
            && raw[..KeyEnd(raw)] == raw[..Lead(raw)] + key
            && AllSpace(raw[..Lead(raw)])
    ensures CommentOf(raw) != "" ==> CommentRun(CommentOf(raw))
    ensures ComOff(raw) >= 0 <==> CommentOf(raw) != ""
    ensures ComOff(raw) >= 0 ==> ComOff(raw) < |raw|
  {
    KeyPartShape(raw);
    CommentPartShape(raw);
  }

  // A key line is one with a key in its trimmed text.
  lemma KeyOfLine(raw: string)
    requires ParseLine(raw).Bind?
    ensures var s := Trim(raw);
            && s != "" && s[0] != '#' && s[0] != ';' && s[0] != '['
            && KeyText(s) != "" && ParseLine(raw).key == KeyText(s)
            && Lead(raw) < |raw| && KeyEnd(raw) == Lead(raw) + |KeyText(s)|
  {
    hide LeadFrom, PastFrom, IndexFrom, ValueOf, AfterEq, KeyText;
  }

  lemma KeyPartShape(raw: string)
    requires ParseLine(raw).Bind?
    ensures var key := ParseLine(raw).key;
            && GoodKeyText(key) && KeyEnd(raw) <= |raw|
            && raw[..KeyEnd(raw)] == raw[..Lead(raw)] + key
            && AllSpace(raw[..Lead(raw)])
  {
    hide *;
    KeyOfLine(raw);
    var s := Trim(raw);
    var ws, tail := TrimSplit(raw);
    KeyTextShape(s);
    Frame(ws, s, tail, |KeyText(s)|);
    assert raw[..|ws|] == ws;
  }

  lemma CommentPartShape(raw: string)
    ensures CommentOf(raw) != "" ==> CommentRun(CommentOf(raw))
    ensures ComOff(raw) >= 0 <==> CommentOf(raw) != ""
    ensures ComOff(raw) >= 0 ==> ComOff(raw) < |raw|
  {
    hide Lead, Past, ComInBody;
    var s := Trim(raw);
    var c := ComInBody(s);
    if c < 0 {
      assert CommentOf(raw) == "";
    } else {
      CommentShape(s);
      var ws, tail := TrimSplit(raw);
      ComFrame(raw, ws, s, tail, c);
      assert ComOff(raw) == |ws| + c;
      assert CommentOf(raw) == raw[|ws| + c..];
    }
  }

  lemma ComFrame(raw: string, ws: string, s: string, tail: string, c: nat)
    requires raw == ws + s + tail && c < |s| && CommentRun(s[c..])
    ensures |ws| + c < |raw| && CommentRun(raw[|ws| + c..])
  {
    Frame(ws, s, tail, c);
    CommentRunGrows(s[c..], tail);
  }

  // Cutting s inside a frame
  lemma Frame(ws: string, s: string, tail: string, n: nat)
    requires n <= |s|
    ensures (ws + s + tail)[..|ws|] == ws
    ensures (ws + s + tail)[..|ws| + n] == ws + s[..n]
    ensures (ws + s + tail)[|ws| + n..] == s[n..] + tail
  {
  }

  lemma CommentRunGrows(c: string, tail: string)
    requires CommentRun(c)
    ensures CommentRun(c + tail)
  {
    var n :| HashAfterBlanks(c, n);
    assert HashAfterBlanks(c + tail, n);
  }

  lemma KeyTextShape(s: string)
    requires s != "" && Trimmed(s)
    requires s[0] != '#' && s[0] != ';' && s[0] != '['
    requires KeyText(s) != ""
    ensures GoodKeyText(KeyText(s)) && |KeyText(s)| <= |s| && s[..|KeyText(s)|] == KeyText(s)
  {
    hide IndexOf, Lead, Past;
    var h := s[..IndexOf(s, '=')];
    EmptyTrim(h);
    IndexMin(s, '=');
    TrimHead(h, s[0]);
    assert s[..|KeyText(s)|] == h[..|KeyText(s)|];
  }

  lemma EmptyTrim(h: string)
    ensures h == "" ==> Trim(h) == ""
  {
  }

  // Trimming a text that starts with ink keeps its start.
  lemma TrimHead(h: string, first: char)
    requires h != "" && h[0] == first && !IsSpace(first)
    ensures var k := Trim(h);
            k != "" && |k| <= |h| && h[..|k|] == k && k[0] == first && forall i | 0 <= i < |k| :: k[i] == h[i]
  {
    LeadIs(h, 0);
    hide Lead, Past, Trim;
    var ws, tail := TrimSplit(h);
    var k := Trim(h);
    assert ws == "";
    assert h == "" + k + tail;
    assert h[..|k|] == k;
    assert k[0] == h[..|k|][0];
  }

  lemma CommentShape(s: string)
    requires ComInBody(s) >= 0
    ensures ComInBody(s) < |s| && CommentRun(s[ComInBody(s)..])
  {
    hide *;
    ComUnfold(s);
    CommentInAfterEq(AfterEq(s));
    DropTwice(s, IndexOf(s, '=') + 1, ComInRest(AfterEq(s)));
  }

  lemma ComUnfold(s: string)
    requires ComInBody(s) >= 0
    ensures var r := AfterEq(s);
            && IndexOf(s, '=') < |s| && r == s[IndexOf(s, '=') + 1..]
            && ComInRest(r) >= 0 && ComInBody(s) == IndexOf(s, '=') + 1 + ComInRest(r)
  {
    hide IndexOf, FindComment, Lead, Past;
    EmptyTrim("");
  }

  lemma RestUnfold(r: string)
    requires ComInRest(r) >= 0
    ensures var v := Trim(r);
            var c := FindComment(v);
            CommentAt(v, c) && Lead(r) < |r| && ComInRest(r) == Lead(r) + BlankRun(v, c)
  {
    hide CommentFrom, LeadFrom, PastFrom, BlankRun, CommentAt;
  }

  lemma CommentInAfterEq(r: string)
    requires ComInRest(r) >= 0
    ensures ComInRest(r) < |r| && CommentRun(r[ComInRest(r)..])
  {
    hide *;
    var v := Trim(r);
    var c := FindComment(v);
    RestUnfold(r);
    BlankRunBlanks(v, c);
    var ws, tail := TrimSplit(r);
    CommentInRest(ws, v, tail, c, BlankRun(v, c));
  }

  lemma CommentInRest(ws: string, v: string, tail: string, c: nat, b: nat)
    requires CommentAt(v, c) && b <= c
    requires forall i | b <= i < c :: IsBlank(v[i])
    requires b > 0 ==> !IsBlank(v[b - 1])
    ensures |ws| + b < |ws + v + tail| && CommentRun((ws + v + tail)[|ws| + b..])
  {
    assert b < c;
    assert HashAfterBlanks(v[b..], c - b);
    CommentRunGrows(v[b..], tail);
    Frame(ws, v, tail, b);
  }

  lemma DropTwice(s: string, i: nat, j: nat)
    requires i + j <= |s|
    ensures s[i..][j..] == s[i + j..]
  {
  }

  // ---- classify_line and the loader's line code, step by step

  datatype LineInfo = LineInfo(kind: nat, nonblank: bool, sec: string, key: string, keyEnd: int, comOff: int)

  /** What classify_line must report, in terms of what the loader reads. */
  function LineInfoOf(raw: string): LineInfo {
    match ParseLine(raw)
    case Inert => LineInfo(0, NonBlank(raw), "", "", 0, -1)
    case Header(sec) => LineInfo(1, NonBlank(raw), sec, "", 0, -1)
    case Bind(key, val) => LineInfo(2, NonBlank(raw), "", Clip(key, MAX_KEY - 1), KeyEnd(raw), ComOff(raw))
  }

  method FindInlineComment(s: string) returns (r: nat)
    ensures r == FindComment(s)
  {
    var p := 0;
    while true
      invariant 0 <= p <= |s|
      invariant forall j | 0 <= j < p :: !CommentAt(s, j)
      decreases |s| - p
    {
      var k := StrChr(s[p..], '#');
      IndexMin(s[p..], '#');
      forall j | p <= j < p + k
        ensures !CommentAt(s, j)
      {
        assert s[j] == s[p..][j - p];
      }
      p := p + k;
      if p == |s| {
        CommentIs(s, |s|);
        return |s|;
      }
      if p > 0 && IsBlank(s[p - 1]) {
        CommentIs(s, p);
        return p;
      }
      p := p + 1;
    }
  }

  method StripInlineComment(s: string) returns (t: string)
    ensures t == StripComment(s)
  {
    var p := FindInlineComment(s);
    if p == |s| {
      return s;
    }
    var end := p - 1;
    while end > 0 && IsBlank(s[end])
      invariant 0 <= end < p
      invariant forall i | end < i < p :: IsBlank(s[i])
    {
      end := end - 1;
    }
    if IsBlank(s[end]) {
      BlankRunIs(s, p, 0);
    } else {
      BlankRunIs(s, p, end + 1);
    }
    t := s[..end + 1];
  }

  /** The body of the loader's loop: one line, already read whole. */
  method ReadLine(raw: string) returns (p: Parsed)
    requires |raw| < MAX_LINE
    ensures p == ParseLine(raw)
  {
    var start, s := RssTrim(raw);
    if s == "" || s[0] == '#' || s[0] == ';' {
      return Inert;
    }
    if s[0] == '[' {
      var end := StrChr(s, ']');
      if end == |s| {
        return Inert;
      }
      HeaderSlice(s);
      var skip, name := RssTrim(s[1..end]);
      var sec, full := RssStrlcpy(name, MAX_SECN);
      return Header(sec);
    }
    var eq := StrChr(s, '=');
    if eq == |s| {
      return Inert;
    }
    var skip, key := RssTrim(s[..eq]);
    var skip2, val := RssTrim(s[eq + 1..]);
    val := StripInlineComment(val);
    skip2, val := RssTrim(val);
    if key == "" {
      return Inert;
    }
    return Bind(key, val);
  }

  lemma HeaderSlice(s: string)
    requires s != "" && s[0] == '['
    ensures IndexOf(s, ']') >= 1
  {
  }

  /** classify_line: the same rules written a second time, with offsets. */
  method ClassifyLine(raw: string) returns (li: LineInfo)
    ensures li == LineInfoOf(raw)
  {
    var nonblank := false;
    var i := 0;
    while i < |raw|
      invariant 0 <= i <= |raw|
      invariant !nonblank
      invariant forall j | 0 <= j < i :: IsSpace(raw[j])
    {
      if !IsSpace(raw[i]) {
        nonblank := true;
        break;
      }
      i := i + 1;
    }
    assert nonblank == NonBlank(raw);
    li := LineInfo(0, nonblank, "", "", 0, -1);
    if |raw| >= MAX_LINE {
      return;
    }
    var start, s := RssTrim(raw);
    if s == "" || s[0] == '#' || s[0] == ';' {
      return;
    }
    if s[0] == '[' {
      var end := StrChr(s, ']');
      if end == |s| {
        return;
      }
      HeaderSlice(s);
      var skip, name := RssTrim(s[1..end]);
      var sec, full := RssStrlcpy(name, MAX_SECN);
      return LineInfo(1, nonblank, sec, "", 0, -1);
    }
    var eq := StrChr(s, '=');
    if eq == |s| {
      return;
    }
    var skip, key := RssTrim(s[..eq]);
    if key == "" {
      return;
    }
    KeySkip(s);
    var cut, full := RssStrlcpy(key, MAX_KEY);
    var com := CommentOffset(raw, start, s, eq);
    return LineInfo(2, nonblank, "", cut, start + skip + |key|, com);
  }

  lemma KeySkip(s: string)
    requires s != "" && Trimmed(s) && IndexOf(s, '=') < |s| && KeyText(s) != ""
    ensures Lead(s[..IndexOf(s, '=')]) == 0
  {
    var h := s[..IndexOf(s, '=')];
    assert h != "";
    assert h[0] == s[0];
    LeadIs(h, 0);
  }

  // The tail of classify_line: where the inline comment run starts
  method CommentOffset(raw: string, start: nat, s: string, eq: nat) returns (com: int)
    requires s == Trim(raw) && start == Lead(raw) && s != ""
    requires eq == IndexOf(s, '=') < |s|
    ensures com == ComOff(raw)
  {
    hide *;
    var skip, val := RssTrim(s[eq + 1..]);
    var c := FindInlineComment(val);
    ComOffIs(raw, s, eq, c);
    if c == |val| {
      return -1;
    }
    ValuePosition(raw, s, s[eq + 1..], val, eq + 1);
    com := BackOverBlanks(raw, start + eq + 1 + skip, val, c);
  }

  // ComOff in the terms of classify_line
  lemma ComOffIs(raw: string, s: string, eq: nat, c: nat)
    requires s == Trim(raw) && s != "" && eq == IndexOf(s, '=') < |s|
    requires c == FindComment(Trim(s[eq + 1..]))
    ensures var val := Trim(s[eq + 1..]);
            && c <= |val|
            && (c == |val| ==> ComOff(raw) == -1)
            && (c < |val| ==> ComOff(raw) == Lead(raw) + eq + 1 + Lead(s[eq + 1..]) + BlankRun(val, c)
                              && 0 < c && !IsBlank(val[0])
                              && Lead(raw) < |raw| && Lead(s[eq + 1..]) < |s[eq + 1..]|)
  {
    hide FindComment, IndexFrom, LeadFrom, PastFrom, BlankRun;
    assert AfterEq(s) == s[eq + 1..];
  }

  // The pointer loop from the '#' back over the blanks before it
  method BackOverBlanks(raw: string, off: nat, v: string, c: nat) returns (com: nat)
    requires off + |v| <= |raw| && raw[off..off + |v|] == v
    requires 0 < c < |v| && !IsBlank(v[0])
    ensures com == off + BlankRun(v, c)
  {
    com := off + c;
    while com > 0 && IsBlank(raw[com - 1])
      invariant off <= com <= off + c
      invariant forall i | com - off <= i < c :: IsBlank(v[i])
    {
      if com == off {
        assert false;
      }
      assert raw[com - 1] == raw[off..off + |v|][com - 1 - off];
      com := com - 1;
    }
    assert com > off ==> raw[com - 1] == raw[off..off + |v|][com - 1 - off];
    BlankRunIs(v, c, com - off);
  }

  // The trimmed value sits in the raw line at the offset classify_line computes.
  lemma ValuePosition(raw: string, s: string, r: string, v: string, e: nat)
    requires s == Trim(raw) && s != "" && e <= |s| && r == s[e..]
    requires v == Trim(r) && Lead(r) < |r| && Lead(raw) < |raw|
    ensures Lead(raw) + e + Lead(r) + |v| <= |raw|
    ensures raw[Lead(raw) + e + Lead(r)..Lead(raw) + e + Lead(r) + |v|] == v
  {
    var ws, tail := TrimSplit(raw);
    var ws2, tail2 := TrimSplit(r);
    SliceInFrame(raw, ws, s, tail, e, ws2, v, tail2, Lead(raw) + e + Lead(r));
  }

  lemma SliceInFrame(raw: string, ws: string, s: string, tail: string, e: nat,
                     ws2: string, v: string, tail2: string, o: nat)
    requires raw == ws + s + tail
    requires e <= |s| && s[e..] == ws2 + v + tail2
    requires o == |ws| + e + |ws2|
    ensures o + |v| <= |raw| && raw[o..o + |v|] == v
  {
    forall i | 0 <= i < |v|
      ensures raw[o + i] == v[i]
    {
      assert raw[o + i] == s[e + |ws2| + i] == s[e..][|ws2| + i] == v[i];
    }
  }
}
