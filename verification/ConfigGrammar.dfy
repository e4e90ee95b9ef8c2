/** The line grammar over raw text, piece by piece: which lines bind a key and to what,
    which open a section, and which are passed over. Every line is one of the three,
    and the loader reads it as the grammar says. */
module ConfigGrammar {
  import opened CText
  import opened ConfigLines
  import opened ConfigValues

  // ---- the grammar

  // No '#' behind a blank
  predicate Uncommented(v: string) {
    forall j | 1 <= j < |v| && v[j] == '#' :: !IsBlank(v[j - 1])
  }

  // White space, the last of it a blank, then '#' and anything
  predicate CommentAfter(tail: string, n: int) {
    && 1 <= n < |tail| && tail[n] == '#' && IsBlank(tail[n - 1])
    && forall i | 0 <= i < n :: IsSpace(tail[i])
  }

  ghost predicate CommentBehind(tail: string) {
    exists n :: CommentAfter(tail, n)
  }

  // The value v between white space, or in front of a comment
  ghost predicate ValuePieces(rest: string, v: string, w: string, tail: string) {
    && rest == w + v + tail && AllSpace(w) && Trimmed(v) && Uncommented(v)
    && if v == "" then tail == "" else AllSpace(tail) || CommentBehind(tail)
  }

  ghost predicate HoldsValue(rest: string, v: string) {
    exists w, tail :: ValuePieces(rest, v, w, tail)
  }

  ghost predicate KeyPieces(raw: string, key: string, v: string, w1: string, w2: string, rest: string) {
    && raw == w1 + key + w2 + "=" + rest && AllSpace(w1) && AllSpace(w2)
    && GoodKeyText(key) && HoldsValue(rest, v)
  }

  // White space, a key, white space, the first '=', and a value
  ghost predicate Binds(raw: string, key: string, v: string) {
    |raw| < 512 && exists w1, w2, rest :: KeyPieces(raw, key, v, w1, w2, rest)
  }

  ghost predicate HeaderPieces(raw: string, name: string, w1: string, w2: string, w3: string, rest: string) {
    && raw == w1 + "[" + w2 + name + w3 + "]" + rest
    && AllSpace(w1) && AllSpace(w2) && AllSpace(w3) && Trimmed(name) && ']' !in name
  }

  // A name between '[' and the first ']', and anything behind
  ghost predicate HeaderNames(raw: string, name: string) {
    |raw| < 512 && exists w1, w2, w3, rest :: HeaderPieces(raw, name, w1, w2, w3, rest)
  }

  // A name that does not fit is cut.
  ghost predicate HeaderLine(raw: string, sec: string) {
    exists name :: HeaderNames(raw, name) && sec == if |name| < 64 then name else name[..63]
  }

  // The first character that is no white space
  predicate FirstInk(raw: string, i: int) {
    0 <= i < |raw| && !IsSpace(raw[i]) && forall j | 0 <= j < i :: IsSpace(raw[j])
  }

  // Blank, a comment, an unclosed '[', without '=', without a key, or over-long
  ghost predicate OtherLine(raw: string) {
    || |raw| >= 512
    || AllSpace(raw)
    || exists i :: SaysNothing(raw, i)
  }

  // The line starts at i, and not as a header or a key line.
  predicate SaysNothing(raw: string, i: int) {
    && FirstInk(raw, i)
    && (|| raw[i] == '#' || raw[i] == ';' || raw[i] == '='
        || (raw[i] == '[' && ']' !in raw[i..])
        || (raw[i] != '[' && '=' !in raw))
  }

  // ---- a value read

  lemma UncommentedIs(v: string)
    ensures Uncommented(v) <==> FindComment(v) == |v|
  {
    CommentFromMin(v, 0);
    if Uncommented(v) {
      CommentIs(v, |v|);
    } else {
      var j :| 1 <= j < |v| && v[j] == '#' && IsBlank(v[j - 1]);
      assert CommentAt(v, j);
    }
  }

  // The blanks in front of a comment, and the white space in front of them
  lemma BlanksBack(tail: string, n: nat) returns (k: nat)
    requires n <= |tail|
    ensures k <= n && (forall i | k <= i < n :: IsBlank(tail[i])) && (k > 0 ==> !IsBlank(tail[k - 1]))
  {
    k := BlankRun(tail, n);
    BlankRunBlanks(tail, n);
  }

  lemma StripsAt(y: string, c: nat, e: nat)
    requires 0 < e < c < |y| && CommentAt(y, c) && forall j | 0 <= j < c :: !CommentAt(y, j)
    requires (forall i | e <= i < c :: IsBlank(y[i])) && !IsBlank(y[e - 1])
    ensures StripComment(y) == y[..e]
  {
    CommentIs(y, c);
    BlankRunIs(y, c, e);
  }

  // A value in front of a comment, as far as the last ink
  lemma CommentKept(v: string, tail: string, n: nat) returns (y: string)
    requires v != "" && Trimmed(v) && CommentAfter(tail, n)
    ensures y == Trim(v + tail) && |y| > |v| + n
    ensures y[..|v|] == v && forall i | |v| <= i <= |v| + n :: y[i] == tail[i - |v|]
  {
    hide LeadFrom, PastFrom, Trim;
    var z := v + tail;
    assert z[|v| + n] == tail[n];
    PastAfter(z, |z|, |v| + n);
    InkFirst(z, v);
    y := z[..Past(z)];
  }

  // The first comment in it
  lemma FirstComment(v: string, tail: string, n: nat, y: string)
    requires v != "" && Trimmed(v) && Uncommented(v) && CommentAfter(tail, n)
    requires |y| > |v| + n && y[..|v|] == v && forall i | |v| <= i <= |v| + n :: y[i] == tail[i - |v|]
    ensures CommentAt(y, |v| + n) && forall j | 0 <= j < |v| + n :: !CommentAt(y, j)
  {
    assert y[|v| + n] == tail[n] && y[|v| + n - 1] == tail[n - 1];
    forall j | 0 <= j < |v| + n
      ensures !CommentAt(y, j)
    {
      if j < |v| {
        assert y[j] == v[j] && (j > 0 ==> y[j - 1] == v[j - 1]);
      } else {
        assert y[j] == tail[j - |v|];
      }
    }
  }

  lemma BeforeComment(v: string, tail: string, n: nat)
    requires v != "" && Trimmed(v) && Uncommented(v) && CommentAfter(tail, n)
    ensures ValueOf(v + tail) == v
  {
    hide FindComment, BlankRun, LeadFrom, PastFrom, Trim, Uncommented, StripComment;
    var y := CommentKept(v, tail, n);
    FirstComment(v, tail, n, y);
    var k := BlanksBack(tail, n);
    var e := |v| + k;
    assert forall i | e <= i < |v| + n :: y[i] == tail[i - |v|];
    assert y[e - 1] == if k > 0 then tail[k - 1] else v[|v| - 1] by {
      assert y[|v| - 1] == y[..|v|][|v| - 1];
      assert k > 0 ==> y[e - 1] == tail[k - 1];
    }
    StripsAt(y, |v| + n, e);
    assert y[..e] == "" + v + tail[..k];
    TrimFrame("", v, tail[..k]);
    ValueIs(v + tail);
  }

  // A text that starts with ink is trimmed behind only.
  lemma InkFirst(z: string, v: string)
    requires v != "" && v <= z && !IsSpace(v[0])
    ensures Trim(z) == z[..Past(z)] && Past(z) > 0
  {
    assert z[0] == v[0];
    LeadIs(z, 0);
    PastAfter(z, |z|, 0);
  }

  lemma ValueAlone(v: string, tail: string)
    requires v != "" && Trimmed(v) && Uncommented(v) && AllSpace(tail)
    ensures ValueOf(v + tail) == v
  {
    hide *;
    TrimFrame("", v, tail);
    assert "" + v + tail == v + tail;
    UncommentedIs(v);
    StripsNothing(v);
    TrimOfTrimmed(v);
    ValueIs(v + tail);
    SpacesNone();
  }

  lemma SpacesNone()
    ensures AllSpace("")
  {
  }

  lemma StripsNothing(v: string)
    requires FindComment(v) == |v|
    ensures StripComment(v) == v
  {
    hide FindComment;
  }

  lemma ValueBehindSpace(w: string, x: string)
    requires AllSpace(w)
    ensures ValueOf(w + x) == ValueOf(x)
  {
    hide Trim, StripComment;
    TrimLead(w, x);
  }

  // What the pieces say is what is read.
  lemma PiecesRead(rest: string, v: string, w: string, tail: string)
    requires ValuePieces(rest, v, w, tail)
    ensures ValueOf(rest) == v
  {
    hide ValueOf, Trimmed, Uncommented;
    assert rest == w + (v + tail);
    ValueBehindSpace(w, v + tail);
    if v == "" {
      NoValue();
      assert v + tail == "";
    } else if AllSpace(tail) {
      ValueAlone(v, tail);
    } else {
      var n :| CommentAfter(tail, n);
      BeforeComment(v, tail, n);
    }
  }

  // Whatever is read is there in pieces.
  lemma ReadInPieces(rest: string)
    ensures HoldsValue(rest, ValueOf(rest))
  {
    hide *;
    var v := ValueOf(rest);
    ValueIs(rest);
    ValueIsPlain(rest);
    PlainIs(v);
    UncommentedIs(v);
    if Lead(rest) == |rest| {
      LeadSpaces(rest);
      assert rest[..|rest|] == rest;
      SpacesTrim(rest);
      NothingRead(rest);
    } else {
      var front, back := TrimSplit(rest);
      var y := Trim(rest);
      var c := FindComment(y);
      InkOf(rest);
      if c == |y| {
        StripsNothing(y);
        TrimOfTrimmed(y);
        WholeRead(rest, v, front, back);
      } else {
        var e, mid := CutInPieces(y);
        BlankRunBlanks(y, c);
        assert rest == front + v + (mid + y[e..] + back) by {
          Seven(front, v, mid, y[e..], back);
        }
        CommentStill(y, c, e, mid, back);
        CommentRead(rest, v, front, mid + y[e..] + back, |mid| + c - e);
      }
    }
  }

  lemma InkOf(rest: string)
    ensures Trimmed(Trim(rest)) && (Trim(rest) != "" ==> !IsSpace(Trim(rest)[0]))
  {
    hide Trim;
  }

  lemma Seven(front: string, v: string, mid: string, com: string, back: string)
    ensures front + (v + mid + com) + back == front + v + (mid + com + back)
  {
  }

  lemma NothingRead(rest: string)
    requires Trim(rest) == "" && AllSpace(rest)
    ensures HoldsValue(rest, ValueOf(rest))
  {
    NoValue();
    ValueIs(rest);
    hide Trim, StripComment, ValueOf;
    assert Trim("") == "" by { TrimOfTrimmed(""); }
    ValueIs("");
    assert ValueOf(rest) == ValueOf("");
    assert ValuePieces(rest, "", rest, "");
  }

  lemma WholeRead(rest: string, v: string, front: string, back: string)
    requires rest == front + v + back && AllSpace(front) && AllSpace(back) && v != "" && Trimmed(v) && Uncommented(v)
    ensures HoldsValue(rest, v)
  {
    hide AllSpace, Trimmed, Uncommented;
    assert ValuePieces(rest, v, front, back);
  }

  lemma CommentRead(rest: string, v: string, front: string, tail: string, n: nat)
    requires rest == front + v + tail && AllSpace(front) && v != "" && Trimmed(v) && Uncommented(v)
    requires CommentAfter(tail, n)
    ensures HoldsValue(rest, v)
  {
    hide AllSpace, Trimmed, Uncommented, CommentAfter;
    assert CommentBehind(tail);
    assert ValuePieces(rest, v, front, tail);
  }

  lemma RunLeavesInk(y: string, c: nat)
    requires 0 < c <= |y| && !IsSpace(y[0])
    ensures BlankRun(y, c) > 0
  {
    BlankRunBlanks(y, c);
    assert !IsBlank(y[0]);
  }

  // A text that starts with ink is its trimmed text and white space.
  lemma InkThenSpace(h: string) returns (w: string)
    requires h != "" && !IsSpace(h[0])
    ensures h == Trim(h) + w && AllSpace(w)
  {
    hide LeadFrom, PastFrom, Trim;
    LeadIs(h, 0);
    var none, tail := TrimSplit(h);
    w := tail;
    assert none == "";
    assert h == "" + Trim(h) + tail;
  }

  lemma StripIs(y: string)
    requires FindComment(y) < |y|
    ensures CommentAt(y, FindComment(y))
    ensures var e := BlankRun(y, FindComment(y)); e > 0 ==> StripComment(y) == y[..e]
  {
    hide CommentFrom, BlankRun, CommentAt;
  }

  lemma CommentBlank(y: string, c: nat)
    requires c < |y| && CommentAt(y, c)
    ensures 0 < c && BlankRun(y, c) < c
  {
  }

  lemma InkLeads(y: string, e: nat)
    requires y != "" && Trimmed(y) && 0 < e <= |y|
    ensures !IsSpace(y[0]) && y[..e] != "" && y[..e][0] == y[0] && y == y[..e] + y[e..]
  {
  }

  // A text cut in front of its comment: the value, white space, and the comment
  lemma CutInPieces(y: string) returns (e: nat, mid: string)
    requires y != "" && Trimmed(y) && FindComment(y) < |y|
    ensures CommentAt(y, FindComment(y)) && e < FindComment(y) && e == BlankRun(y, FindComment(y))
    ensures var v := Trim(StripComment(y));
            v != "" && y == v + mid + y[e..] && AllSpace(mid) && |v| + |mid| == e
  {
    hide *;
    var c := FindComment(y);
    e := BlankRun(y, c);
    StripIs(y);
    CommentBlank(y, c);
    InkLeads(y, 1);
    RunLeavesInk(y, c);
    InkLeads(y, e);
    mid := InkThenSpace(y[..e]);
    TrimInk(y[..e]);
  }

  lemma TrimInk(x: string)
    requires x != "" && !IsSpace(x[0])
    ensures Trim(x) != ""
  {
    hide LeadFrom, PastFrom;
    TrimFrom(x, 0);
  }

  lemma CommentStill(y: string, c: nat, e: nat, mid: string, back: string)
    requires c < |y| && e < c && CommentAt(y, c) && AllSpace(mid) && forall i | e <= i < c :: IsBlank(y[i])
    ensures CommentAfter(mid + y[e..] + back, |mid| + c - e)
  {
    var t, n := mid + y[e..] + back, |mid| + c - e;
    assert t[n] == y[c] && t[n - 1] == y[c - 1];
    forall i | 0 <= i < n
      ensures IsSpace(t[i])
    {
      if i >= |mid| {
        assert t[i] == y[e + i - |mid|];
      }
    }
  }

  // ---- key lines

  lemma EqAt(key: string, w: string, t: string)
    requires GoodKeyText(key) && AllSpace(w)
    ensures var s := key + w + "=" + t;
            && IndexOf(s, '=') == |key| + |w| && s[..|key| + |w|] == "" + key + w && s[|key| + |w| + 1..] == t
            && s[0] == key[0] && s[|s| - 1] == if t == "" then '=' else t[|t| - 1]
  {
    hide IndexFrom;
    var s := key + w + "=" + t;
    forall i | 0 <= i < |key| + |w|
      ensures s[i] != '='
    {
      if i < |key| {
        assert s[i] == key[i] && key[i] in key;
      } else {
        assert s[i] == w[i - |key|];
      }
    }
    IndexIs(s, '=', |key| + |w|);
  }

  lemma BodyBinds(key: string, w: string, t: string)
    requires GoodKeyText(key) && AllSpace(w) && (t != "" ==> !IsSpace(t[|t| - 1]))
    ensures var s := key + w + "=" + t;
            Trimmed(s) && s != "" && ParseBody(s) == Bind(key, ValueOf(t))
  {
    hide *;
    var s := key + w + "=" + t;
    EqAt(key, w, t);
    KeyStart(key);
    SpacesNone();
    TrimFrame("", key, w);
    KeyTextIs(s);
    BodyOf(s, key, t);
  }

  lemma KeyStart(key: string)
    requires GoodKeyText(key)
    ensures key != "" && Trimmed(key) && key[0] != '[' && key[0] != '#' && key[0] != ';'
  {
  }

  lemma BodyOf(s: string, key: string, t: string)
    requires s != "" && s[0] != '#' && s[0] != ';' && s[0] != '[' && IndexOf(s, '=') < |s|
    requires KeyText(s) == key && key != "" && Trimmed(key) && s[0] == key[0] && s[IndexOf(s, '=') + 1..] == t
    requires s[|s| - 1] == if t == "" then '=' else t[|t| - 1]
    requires t != "" ==> !IsSpace(t[|t| - 1])
    ensures Trimmed(s) && ParseBody(s) == Bind(key, ValueOf(t))
  {
    hide IndexOf, KeyText, ValueOf;
  }

  lemma LinePieces(w1: string, key: string, w2: string, rest: string, n: nat)
    requires n <= |rest|
    ensures w1 + key + w2 + "=" + rest == w1 + (key + w2 + "=" + rest[..n]) + rest[n..]
  {
    assert rest == rest[..n] + rest[n..];
  }

  // Whatever stands behind the first '=', the line binds the key to what is read of it.
  lemma KeyBinds(w1: string, key: string, w2: string, rest: string)
    requires AllSpace(w1) && AllSpace(w2) && GoodKeyText(key) && |w1 + key + w2 + "=" + rest| < 512
    ensures ParseLine(w1 + key + w2 + "=" + rest) == Bind(key, ValueOf(rest))
  {
    hide *;
    var n := Past(rest);
    var t := rest[..n];
    PastSpaces(rest);
    BodyBinds(key, w2, t);
    LinePieces(w1, key, w2, rest, n);
    TrimFrame(w1, key + w2 + "=" + t, rest[n..]);
    TrimCut(rest);
    SameTrim(t, rest);
    ShortLine(w1 + key + w2 + "=" + rest);
  }

  lemma ShortLine(raw: string)
    requires |raw| < 512
    ensures ParseLine(raw) == ParseBody(Trim(raw))
  {
    hide ParseBody, Trim;
  }

  lemma KeyLineBinds(raw: string, key: string, v: string)
    requires Binds(raw, key, v)
    ensures ParseLine(raw) == Bind(key, v)
  {
    hide ParseLine, ValueOf, GoodKeyText, AllSpace, ValuePieces;
    var w1, w2, rest :| KeyPieces(raw, key, v, w1, w2, rest);
    KeyBinds(w1, key, w2, rest);
    var w, tail :| ValuePieces(rest, v, w, tail);
    PiecesRead(rest, v, w, tail);
  }

  lemma KeyTextIs(s: string)
    ensures KeyText(s) == Trim(s[..IndexOf(s, '=')])
  {
    hide Trim, IndexOf;
  }

  lemma SplitAt(s: string, e: nat)
    requires e < |s| && s[e] == '='
    ensures s == s[..e] + "=" + s[e + 1..]
  {
  }

  // The key of a line, the white space behind it, and what follows the '='
  lemma KeyInPieces(s: string) returns (key: string, w: string)
    requires s != "" && Trimmed(s) && s[0] != '#' && s[0] != ';' && s[0] != '['
    requires IndexOf(s, '=') < |s| && KeyText(s) != ""
    ensures key == KeyText(s) && GoodKeyText(key) && AllSpace(w)
    ensures s == key + w + "=" + s[IndexOf(s, '=') + 1..]
  {
    hide *;
    KeyTextShape(s);
    KeyTextIs(s);
    key := KeyText(s);
    var e := IndexOf(s, '=');
    HeadStarts(s, e);
    w := InkThenSpace(s[..e]);
    SplitAt(s, e);
  }

  lemma HeadStarts(s: string, e: nat)
    requires s != "" && Trimmed(s) && e == IndexOf(s, '=') < |s| && KeyText(s) != ""
    ensures e > 0 && s[..e][0] == s[0] && !IsSpace(s[0])
  {
    hide IndexFrom;
    EmptyTrim(s[..e]);
  }

  lemma BindIsKeyLine(raw: string)
    requires ParseLine(raw).Bind?
    ensures Binds(raw, ParseLine(raw).key, ParseLine(raw).val)
  {
    hide *;
    BindShort(raw);
    var s := Trim(raw);
    KeyOfLine(raw);
    var ws, tail := TrimSplit(raw);
    TrimmedTrim(raw);
    BindHasEq(raw);
    var key, w := KeyInPieces(s);
    var rest := s[IndexOf(s, '=') + 1..] + tail;
    Regrouped(ws, key, w, s[IndexOf(s, '=') + 1..], tail);
    KeyBinds(ws, key, w, rest);
    ReadInPieces(rest);
    IsKeyLine(raw, key, ValueOf(rest), ws, w, rest);
  }

  lemma Regrouped(ws: string, key: string, w: string, x: string, tail: string)
    ensures ws + (key + w + "=" + x) + tail == ws + key + w + "=" + (x + tail)
  {
  }

  lemma TrimmedTrim(raw: string)
    ensures Trimmed(Trim(raw))
  {
    hide Trim;
  }

  lemma BindShort(raw: string)
    requires ParseLine(raw).Bind?
    ensures |raw| < 512
  {
    hide ParseBody;
  }

  lemma BindHasEq(raw: string)
    requires ParseLine(raw).Bind?
    ensures IndexOf(Trim(raw), '=') < |Trim(raw)|
  {
    hide Trim, IndexFrom, KeyText, ValueOf, AfterEq;
  }

  lemma IsKeyLine(raw: string, key: string, v: string, w1: string, w2: string, rest: string)
    requires |raw| < 512 && raw == w1 + key + w2 + "=" + rest && AllSpace(w1) && AllSpace(w2) && GoodKeyText(key)
    requires HoldsValue(rest, v)
    ensures Binds(raw, key, v)
  {
    hide AllSpace, GoodKeyText, HoldsValue;
    assert KeyPieces(raw, key, v, w1, w2, rest);
  }

  // ---- the parts of a key line

  // Where the comment behind a value starts, with the blanks in front of its '#'
  predicate CommentStart(tail: string, k: int, n: int) {
    && 0 <= k < n && CommentAfter(tail, n)
    && (forall i | k <= i < n :: IsBlank(tail[i])) && (k > 0 ==> !IsBlank(tail[k - 1]))
  }

  lemma RestOf(y: string, r: string, c: nat, e: nat)
    requires y == Trim(r) && c < |y| && CommentAt(y, c) && forall j | 0 <= j < c :: !CommentAt(y, j)
    requires e <= c && (forall i | e <= i < c :: IsBlank(y[i])) && (e > 0 ==> !IsBlank(y[e - 1]))
    ensures ComInRest(r) == Lead(r) + e
  {
    hide LeadFrom, PastFrom, Trim, CommentAt;
    CommentIs(y, c);
    BlankRunIs(y, c, e);
  }

  lemma RestAlone(r: string)
    requires Uncommented(Trim(r))
    ensures ComInRest(r) == -1
  {
    hide LeadFrom, PastFrom, Trim;
    UncommentedIs(Trim(r));
  }

  // The comment in what follows the '=', cut at its last ink
  lemma CommentIn(rest: string, v: string, w: string, tail: string, k: nat, n: nat)
    requires ValuePieces(rest, v, w, tail) && v != "" && CommentStart(tail, k, n)
    ensures ComInRest(rest[..Past(rest)]) == |w| + |v| + k
  {
    hide LeadFrom, PastFrom, Trim, FindComment, BlankRun, ComInRest;
    var r := rest[..Past(rest)];
    TrimCut(rest);
    assert rest == w + (v + tail);
    TrimLead(w, v + tail);
    var y := CommentKept(v, tail, n);
    FirstComment(v, tail, n, y);
    assert y == Trim(r);
    var e := |v| + k;
    assert forall i | e <= i < |v| + n :: y[i] == tail[i - |v|];
    assert y[e - 1] == if k > 0 then tail[k - 1] else v[|v| - 1] by {
      assert y[|v| - 1] == y[..|v|][|v| - 1];
      assert k > 0 ==> y[e - 1] == tail[k - 1];
    }
    RestOf(y, r, |v| + n, e);
    assert rest[|w|] == v[0];
    PastAfter(rest, |rest|, |w|);
    assert forall j | 0 <= j < |w| :: r[j] == w[j];
    LeadIs(r, |w|);
  }

  lemma NoCommentIn(rest: string, v: string, w: string, tail: string)
    requires ValuePieces(rest, v, w, tail) && (v == "" || AllSpace(tail))
    ensures ComInRest(rest[..Past(rest)]) == -1
  {
    hide *;
    PiecesUncommented(rest, v, w, tail);
    TrimCut(rest);
    if v == "" {
      SpacesTrim(rest);
    } else {
      TrimFrame(w, v, tail);
    }
    RestAlone(rest[..Past(rest)]);
  }

  lemma PiecesUncommented(rest: string, v: string, w: string, tail: string)
    requires ValuePieces(rest, v, w, tail)
    ensures AllSpace(w) && Trimmed(v) && Uncommented(v) && rest == w + v + tail
    ensures v == "" ==> AllSpace(rest)
  {
    hide Uncommented, CommentAfter;
    if v == "" {
      assert rest == w;
    }
  }

  lemma BodyComment(key: string, w: string, t: string)
    requires GoodKeyText(key) && AllSpace(w)
    ensures var s := key + w + "=" + t;
            ComInBody(s) == if ComInRest(t) < 0 then -1 else |key| + |w| + 1 + ComInRest(t)
  {
    EqAt(key, w, t);
    hide IndexOf, ComInRest;
  }

  lemma BodyEnds(key: string, w: string, t: string)
    requires GoodKeyText(key) && AllSpace(w) && (t != "" ==> !IsSpace(t[|t| - 1]))
    ensures var s := key + w + "=" + t; s != "" && Trimmed(s)
  {
    hide ParseBody, ValueOf, GoodKeyText;
    BodyBinds(key, w, t);
  }

  // Offsets within the line
  lemma LineOffsets(w1: string, key: string, w2: string, rest: string)
    requires AllSpace(w1) && AllSpace(w2) && GoodKeyText(key)
    ensures var raw := w1 + key + w2 + "=" + rest;
            var c := ComInRest(rest[..Past(rest)]);
            && Lead(raw) == |w1|
            && ComOff(raw) == if c < 0 then -1 else |w1| + |key| + |w2| + 1 + c
  {
    hide *;
    var raw := w1 + key + w2 + "=" + rest;
    var n := Past(rest);
    var t := rest[..n];
    PastSpaces(rest);
    BodyEnds(key, w2, t);
    BodyComment(key, w2, t);
    LinePieces(w1, key, w2, rest, n);
    TrimFrame(w1, key + w2 + "=" + t, rest[n..]);
    OffIs(raw);
  }

  lemma OffIs(raw: string)
    ensures ComOff(raw) == if ComInBody(Trim(raw)) < 0 then -1 else Lead(raw) + ComInBody(Trim(raw))
  {
    hide ComInBody, Trim, Lead;
  }

  /** What a rewrite cuts a key line at: the end of its key, and the comment behind its
      value with the blanks in front of the '#', or nothing when there is no comment. */
  lemma CutsAre(raw: string, key: string, v: string, w1: string, w2: string, w: string, tail: string)
    requires |raw| < 512 && KeyPieces(raw, key, v, w1, w2, w + v + tail) && ValuePieces(w + v + tail, v, w, tail)
    ensures ParseLine(raw) == Bind(key, v) && KeyEnd(raw) == |w1| + |key|
    ensures v == "" || AllSpace(tail) ==> ComOff(raw) == -1 && CommentOf(raw) == ""
    ensures forall k: nat, n: nat | k <= |tail| && v != "" && CommentStart(tail, k, n) ::
              ComOff(raw) == |raw| - |tail| + k && CommentOf(raw) == tail[k..]
  {
    hide *;
    var rest := w + v + tail;
    PiecesOf(raw, key, v, w1, w2, rest);
    IsKeyLine(raw, key, v, w1, w2, rest);
    KeyLineBinds(raw, key, v);
    LineOffsets(w1, key, w2, rest);
    KeyEndIs(raw);
    if v == "" || AllSpace(tail) {
      NoCommentIn(rest, v, w, tail);
      CommentIsCut(raw, tail, 0);
    }
    forall k: nat, n: nat | k <= |tail| && v != "" && CommentStart(tail, k, n)
      ensures ComOff(raw) == |raw| - |tail| + k && CommentOf(raw) == tail[k..]
    {
      CommentIn(rest, v, w, tail, k, n);
      EndsWith(w1 + key + w2 + "=" + w + v, tail, raw, w1 + key + w2 + "=", w, v);
      CommentIsCut(raw, tail, k);
    }
  }

  lemma EndsWith(front: string, tail: string, raw: string, a: string, w: string, v: string)
    requires raw == a + (w + v + tail) && front == a + w + v
    ensures raw == front + tail && |front| == |a| + |w| + |v| && raw[|raw| - |tail|..] == tail
  {
  }

  lemma PiecesOf(raw: string, key: string, v: string, w1: string, w2: string, rest: string)
    requires KeyPieces(raw, key, v, w1, w2, rest)
    ensures raw == w1 + key + w2 + "=" + rest && AllSpace(w1) && AllSpace(w2) && GoodKeyText(key)
    ensures HoldsValue(rest, v)
  {
    hide AllSpace, GoodKeyText, HoldsValue;
  }

  lemma KeyEndIs(raw: string)
    requires ParseLine(raw).Bind?
    ensures KeyEnd(raw) == Lead(raw) + |ParseLine(raw).key|
  {
    hide ParseLine, Lead;
  }

  lemma CommentIsCut(raw: string, tail: string, k: nat)
    ensures ComOff(raw) == -1 ==> CommentOf(raw) == ""
    ensures k <= |tail| <= |raw| && raw[|raw| - |tail|..] == tail && ComOff(raw) == |raw| - |tail| + k ==>
              CommentOf(raw) == tail[k..]
  {
    hide ComOff;
    if k <= |tail| <= |raw| && raw[|raw| - |tail|..] == tail {
      assert raw[|raw| - |tail| + k..] == tail[k..];
    }
  }

  // ---- headers

  lemma NameTrims(w2: string, name: string, w3: string)
    requires AllSpace(w2) && AllSpace(w3) && Trimmed(name)
    ensures Trim(w2 + name + w3) == name
  {
    hide LeadFrom, PastFrom;
    if name == "" {
      SpacesAppend(w2, w3);
      assert w2 + name + w3 == w2 + w3;
      SpacesTrim(w2 + w3);
    } else {
      TrimFrame(w2, name, w3);
    }
  }

  lemma NoBracket(w2: string, name: string, w3: string)
    requires AllSpace(w2) && AllSpace(w3) && ']' !in name
    ensures ']' !in w2 + name + w3
  {
  }

  lemma BracketAt(inner: string, t: string)
    requires ']' !in inner
    ensures var s := "[" + inner + "]" + t;
            IndexOf(s, ']') == |inner| + 1 < |s| && s[0] == '[' && s[1..|inner| + 1] == inner
            && s[|s| - 1] == if t == "" then ']' else t[|t| - 1]
  {
    hide IndexFrom;
    var s := "[" + inner + "]" + t;
    forall i | 0 <= i < |inner| + 1
      ensures s[i] != ']'
    {
      if i > 0 {
        assert s[i] == inner[i - 1] && inner[i - 1] in inner;
      }
    }
    IndexIs(s, ']', |inner| + 1);
  }

  lemma BodyOpens(inner: string, t: string)
    requires ']' !in inner && (t != "" ==> !IsSpace(t[|t| - 1]))
    ensures var s := "[" + inner + "]" + t;
            Trimmed(s) && s != "" && ParseBody(s) == Header(Clip(Trim(inner), 63))
  {
    BracketAt(inner, t);
    hide IndexOf, Trim, Clip;
  }

  lemma HeaderPiecesJoin(w1: string, inner: string, rest: string, n: nat)
    requires n <= |rest|
    ensures w1 + "[" + inner + "]" + rest == w1 + ("[" + inner + "]" + rest[..n]) + rest[n..]
  {
    assert rest == rest[..n] + rest[n..];
  }

  lemma InnerJoin(w1: string, w2: string, name: string, w3: string, rest: string)
    ensures w1 + "[" + w2 + name + w3 + "]" + rest == w1 + "[" + (w2 + name + w3) + "]" + rest
  {
  }

  lemma BracketsOpen(w1: string, inner: string, rest: string)
    requires AllSpace(w1) && ']' !in inner && |w1 + "[" + inner + "]" + rest| < 512
    ensures ParseLine(w1 + "[" + inner + "]" + rest) == Header(Clip(Trim(inner), 63))
  {
    hide *;
    var n := Past(rest);
    PastSpaces(rest);
    BodyOpens(inner, rest[..n]);
    HeaderPiecesJoin(w1, inner, rest, n);
    TrimFrame(w1, "[" + inner + "]" + rest[..n], rest[n..]);
    ShortLine(w1 + "[" + inner + "]" + rest);
  }

  lemma HeaderLineOpens(raw: string, sec: string)
    requires HeaderLine(raw, sec)
    ensures ParseLine(raw) == Header(sec)
  {
    hide ParseLine, AllSpace, Trimmed, Trim;
    var name :| HeaderNames(raw, name) && sec == if |name| < 64 then name else name[..63];
    var w1, w2, w3, rest :| HeaderPieces(raw, name, w1, w2, w3, rest);
    NameTrims(w2, name, w3);
    NoBracket(w2, name, w3);
    InnerJoin(w1, w2, name, w3, rest);
    BracketsOpen(w1, w2 + name + w3, rest);
  }

  lemma HeaderParts(raw: string)
    requires ParseLine(raw).Header?
    ensures var s := Trim(raw);
            && |raw| < 512 && s != "" && s[0] == '[' && 1 <= IndexOf(s, ']') < |s|
            && ParseLine(raw).sec == Clip(Trim(s[1..IndexOf(s, ']')]), 63)
  {
    hide Trim, IndexFrom, Clip, KeyText, ValueOf, AfterEq;
    HeaderSlice(Trim(raw));
  }

  lemma InnerIs(s: string, e: nat)
    requires s != "" && s[0] == '[' && 1 <= e == IndexOf(s, ']') < |s|
    ensures ']' !in s[1..e] && s == "[" + s[1..e] + "]" + s[e + 1..]
  {
    hide IndexFrom;
    IndexMin(s, ']');
  }

  lemma NameInPieces(inner: string) returns (w2: string, w3: string)
    ensures inner == w2 + Trim(inner) + w3 && AllSpace(w2) && AllSpace(w3) && Trimmed(Trim(inner))
  {
    hide LeadFrom, PastFrom;
    if Lead(inner) == |inner| {
      LeadSpaces(inner);
      assert inner[..|inner|] == inner;
      SpacesTrim(inner);
      w2, w3 := inner, "";
    } else {
      w2, w3 := TrimSplit(inner);
    }
  }

  lemma HeaderIsLine(raw: string)
    requires ParseLine(raw).Header?
    ensures HeaderLine(raw, ParseLine(raw).sec)
  {
    hide *;
    HeaderParts(raw);
    var s := Trim(raw);
    SomeInk(raw);
    var ws, tail := TrimSplit(raw);
    var e := IndexOf(s, ']');
    InnerIs(s, e);
    var inner := s[1..e];
    var w2, w3 := NameInPieces(inner);
    HeaderJoined(ws, inner, s[e + 1..], tail);
    InnerJoin(ws, w2, Trim(inner), w3, s[e + 1..] + tail);
    IsHeaderLine(raw, Trim(inner), ws, w2, w3, s[e + 1..] + tail);
  }

  lemma SomeInk(raw: string)
    requires Trim(raw) != ""
    ensures Lead(raw) < |raw|
  {
    hide LeadFrom, PastFrom;
  }

  lemma HeaderJoined(ws: string, inner: string, x: string, tail: string)
    ensures ws + ("[" + inner + "]" + x) + tail == ws + "[" + inner + "]" + (x + tail)
  {
  }

  lemma IsHeaderLine(raw: string, name: string, w1: string, w2: string, w3: string, rest: string)
    requires |raw| < 512 && raw == w1 + "[" + w2 + name + w3 + "]" + rest
    requires AllSpace(w1) && AllSpace(w2) && AllSpace(w3) && Trimmed(name) && ']' !in w2 + name + w3
    ensures HeaderLine(raw, Clip(name, 63))
  {
    hide AllSpace, Trimmed;
    assert forall c | c in name :: c in w2 + name + w3;
    assert HeaderPieces(raw, name, w1, w2, w3, rest);
    assert HeaderNames(raw, name);
  }

  // ---- lines passed over

  lemma FirstInkIs(raw: string, i: nat)
    requires FirstInk(raw, i)
    ensures Lead(raw) == i && i < Past(raw) && Trim(raw) == raw[i..Past(raw)]
  {
    hide LeadFrom, PastFrom;
    LeadIs(raw, i);
    PastAfter(raw, |raw|, i);
  }

  lemma InkAtLead(raw: string)
    requires Lead(raw) < |raw|
    ensures FirstInk(raw, Lead(raw))
  {
    hide LeadFrom;
    LeadSpaces(raw);
  }

  lemma NoneFound(s: string, c: char)
    ensures c !in s <==> IndexOf(s, c) == |s|
  {
    hide IndexFrom;
    IndexMin(s, c);
    if c !in s {
      IndexIs(s, c, |s|);
    }
  }

  lemma EqFirst(s: string)
    requires s != "" && s[0] == '='
    ensures IndexOf(s, '=') == 0 && KeyText(s) == ""
  {
    IndexIs(s, '=', 0);
    hide IndexFrom;
    EmptyTrim("");
    assert s[..0] == "";
  }

  // Only white space is cut off.
  lemma SameInk(raw: string, i: nat, c: char)
    requires FirstInk(raw, i) && !IsSpace(c)
    ensures var s := Trim(raw);
            s != "" && s[0] == raw[i] && (c in s <==> c in raw) && (c in s <==> c in raw[i..])
  {
    hide PastFrom, LeadFrom;
    FirstInkIs(raw, i);
    PastSpaces(raw);
    var s, n := raw[i..Past(raw)], Past(raw);
    forall k | 0 <= k < |raw| && raw[k] == c
      ensures i <= k < n && s[k - i] == c && raw[i..][k - i] == c
    {
    }
    assert forall k | 0 <= k < |s| :: s[k] == raw[i + k];
    assert forall k | 0 <= k < |raw[i..]| :: raw[i..][k] == raw[i + k];
  }

  lemma OtherIsInert(raw: string)
    requires OtherLine(raw)
    ensures ParseLine(raw) == Inert
  {
    hide ParseBody, Trim, SaysNothing, FirstInk;
    if |raw| < 512 {
      if AllSpace(raw) {
        SpacesTrim(raw);
        EmptyBody();
      } else {
        var i :| SaysNothing(raw, i);
        InkSaysNothing(raw, i);
      }
    }
  }

  lemma EmptyBody()
    ensures ParseBody("") == Inert
  {
  }

  lemma InkSaysNothing(raw: string, i: int)
    requires SaysNothing(raw, i)
    ensures ParseBody(Trim(raw)) == Inert
  {
    hide LeadFrom, PastFrom, Trim, KeyText, ValueOf, AfterEq, IndexOf, Clip;
    var s := Trim(raw);
    SameInk(raw, i, ']');
    SameInk(raw, i, '=');
    NoneFound(s, ']');
    NoneFound(s, '=');
    if s[0] == '=' {
      EqFirst(s);
    }
  }

  lemma InertIsOther(raw: string)
    requires ParseLine(raw) == Inert
    ensures OtherLine(raw)
  {
    hide ParseBody, Trim, SaysNothing, FirstInk, Lead;
    if |raw| < 512 {
      if Lead(raw) == |raw| {
        LeadSpaces(raw);
        assert raw[..|raw|] == raw;
      } else {
        InkAtLead(raw);
        NothingSaid(raw, Lead(raw));
      }
    }
  }

  lemma NothingSaid(raw: string, i: nat)
    requires FirstInk(raw, i) && ParseBody(Trim(raw)) == Inert
    ensures SaysNothing(raw, i)
  {
    hide LeadFrom, PastFrom, Trim, KeyText, ValueOf, AfterEq, IndexOf, Clip;
    var s := Trim(raw);
    SameInk(raw, i, ']');
    SameInk(raw, i, '=');
    NoneFound(s, ']');
    NoneFound(s, '=');
    if s[0] != '[' && '=' in s && KeyText(s) == "" {
      EmptyKey(s);
    }
  }

  lemma EmptyKey(s: string)
    requires s != "" && !IsSpace(s[0]) && '=' in s && KeyText(s) == ""
    ensures s[0] == '='
  {
    hide LeadFrom, PastFrom, Trim, IndexOf;
    NoneFound(s, '=');
    IndexMin(s, '=');
    KeyTextIs(s);
    var e := IndexOf(s, '=');
    if e > 0 {
      TrimFrom(s[..e], 0);
    }
  }

  /** The loader reads every line as the grammar says: a key line binds its key to its
      value, a header opens its section, and nothing else does anything. */
  lemma LineIs(raw: string)
    ensures forall key, v :: ParseLine(raw) == Bind(key, v) <==> Binds(raw, key, v)
    ensures forall sec :: ParseLine(raw) == Header(sec) <==> HeaderLine(raw, sec)
    ensures ParseLine(raw) == Inert <==> OtherLine(raw)
  {
    hide ParseLine, Binds, HeaderLine, OtherLine;
    forall key, v
      ensures ParseLine(raw) == Bind(key, v) <==> Binds(raw, key, v)
    {
      if Binds(raw, key, v) {
        KeyLineBinds(raw, key, v);
      }
      if ParseLine(raw).Bind? {
        BindIsKeyLine(raw);
      }
    }
    forall sec
      ensures ParseLine(raw) == Header(sec) <==> HeaderLine(raw, sec)
    {
      if HeaderLine(raw, sec) {
        HeaderLineOpens(raw, sec);
      }
      if ParseLine(raw).Header? {
        HeaderIsLine(raw);
      }
    }
    if OtherLine(raw) {
      OtherIsInert(raw);
    }
    if ParseLine(raw) == Inert {
      InertIsOther(raw);
    }
  }
}
