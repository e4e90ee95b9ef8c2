/** What a written key line reads back as, whatever its value is.

    A value that is not trimmed, holds a comment or is empty is written all the
    same, and the loader may read something else: `ReadBack` says when it does not. */
module ConfigValues {
  import opened CText
  import opened ConfigLines

  // Trimmed, and no part of it is taken for a comment
  predicate Plain(v: string) {
    Trimmed(v) && FindComment(v) == |v|
  }

  // ---- trimming

  lemma SpacesTrim(s: string)
    requires AllSpace(s)
    ensures Trim(s) == "" && Lead(s) == |s|
  {
    hide LeadFrom, PastFrom;
    LeadIs(s, |s|);
  }

  lemma SpacesAppend(a: string, b: string)
    requires AllSpace(a) && AllSpace(b)
    ensures AllSpace(a + b)
  {
  }

  lemma TrimLead(ws: string, a: string)
    requires AllSpace(ws)
    ensures Trim(ws + a) == Trim(a)
  {
    hide *;
    if Lead(a) == |a| {
      LeadSpaces(a);
      assert a[..|a|] == a;
      SpacesAppend(ws, a);
      SpacesTrim(ws + a);
      SpacesTrim(a);
    } else {
      var front, tail := TrimSplit(a);
      var t := Trim(a);
      SpacesAppend(ws, front);
      TrimFrame(ws + front, t, tail);
      Assoc4(ws, front, t, tail);
    }
  }

  lemma Assoc4(a: string, b: string, c: string, d: string)
    ensures a + (b + c + d) == a + b + c + d
  {
  }

  lemma TrimCut(a: string)
    ensures Trim(a[..Past(a)]) == Trim(a)
  {
    hide LeadFrom, PastFrom;
    if Lead(a) == |a| {
      LeadSpaces(a);
      PastIs(a, 0);
    } else {
      var front, tail := TrimSplit(a);
      var t := Trim(a);
      TrimFrame(front, t, "");
      assert a[..Past(a)] == front + t + "";
    }
  }

  // ---- the line

  lemma CutAtEq(key: string, t: string)
    requires GoodKeyText(key)
    ensures var s := key + " =" + t;
            IndexOf(s, '=') == |key| + 1 && KeyText(s) == key && AfterEq(s) == t
  {
    var s := key + " =" + t;
    EqPlace(key, t);
    TrimFrame("", key, " ");
    hide IndexOf, Lead, Past, Trim;
    assert s[..|key| + 1] == "" + key + " ";
    assert s[|key| + 2..] == t;
  }

  lemma EqPlace(key: string, t: string)
    requires '=' !in key
    ensures IndexOf(key + " =" + t, '=') == |key| + 1
  {
    hide IndexOf;
    var s := key + " =" + t;
    forall i | 0 <= i < |key| + 1
      ensures s[i] != '='
    {
      if i < |key| {
        assert s[i] == key[i] && key[i] in key;
      }
    }
    IndexIs(s, '=', |key| + 1);
  }

  lemma BodyReads(key: string, t: string)
    requires GoodKeyText(key) && (t != "" ==> !IsSpace(t[|t| - 1]))
    ensures var s := key + " =" + t;
            Trimmed(s) && s != "" && ParseBody(s) == Bind(key, ValueOf(t)) && ComInBody(s) == (if ComInRest(t) < 0 then -1 else |key| + 2 + ComInRest(t))
  {
    CutAtEq(key, t);
    var s := key + " =" + t;
    assert s[0] == key[0];
    assert s[|s| - 1] == if t == "" then '=' else t[|t| - 1];
    hide IndexOf, KeyText, AfterEq, ValueOf, ComInRest;
  }

  lemma LineSplits(ws: string, key: string, v: string, c: string)
    ensures var w := " " + (v + c);
            ws + key + " = " + v + c == ws + (key + " =" + w[..Past(w)]) + w[Past(w)..]
  {
    var w := " " + (v + c);
    var n := Past(w);
    assert w == w[..n] + w[n..];
    Assoc3(ws + key + " = ", v, c);
    Assoc3(ws, key, " = ");
    assert key + " = " == key + " =" + " ";
    Assoc3(ws, key + " =", " ");
    Assoc3(ws + (key + " ="), " ", v + c);
    Assoc3(ws + (key + " ="), w[..n], w[n..]);
    Assoc3(ws, key + " =", w[..n]);
  }

  lemma SameTrim(v: string, t: string)
    requires Trim(v) == Trim(t)
    ensures ValueOf(v) == ValueOf(t)
  {
  }

  /** A written key line binds its key to what the value and the comment behind it
      read back as, whatever they are. */
  lemma RebuiltReads(ws: string, key: string, v: string, c: string)
    requires AllSpace(ws) && GoodKeyText(key)
    requires |ws + key + " = " + v + c| < MAX_LINE
    ensures var raw := ws + key + " = " + v + c;
            ParseLine(raw) == Bind(key, ValueOf(v + c)) && KeyEnd(raw) == |ws| + |key|
  {
    hide *;
    var raw := ws + key + " = " + v + c;
    var w := " " + (v + c);
    var t := w[..Past(w)];
    PastSpaces(w);
    LineSplits(ws, key, v, c);
    BodyReads(key, t);
    TrimFrame(ws, key + " =" + t, w[Past(w)..]);
    TrimCut(w);
    Blank();
    TrimLead(" ", v + c);
    SameTrim(t, v + c);
    ParseOfBody(raw, key, ValueOf(t));
  }

  lemma Blank()
    ensures AllSpace(" ")
  {
  }

  lemma ParseOfBody(raw: string, key: string, v: string)
    requires |raw| < MAX_LINE && ParseBody(Trim(raw)) == Bind(key, v)
    ensures ParseLine(raw) == Bind(key, v) && KeyEnd(raw) == Lead(raw) + |key|
  {
    hide ParseBody, Trim, Lead;
  }

  // A line with nothing behind the '=' carries no comment.
  lemma BareLine(ws: string, key: string)
    requires AllSpace(ws) && GoodKeyText(key) && |ws + key + " = "| < MAX_LINE
    ensures ParseLine(ws + key + " = ") == Bind(key, "") && KeyEnd(ws + key + " = ") == |ws| + |key|
    ensures ComOff(ws + key + " = ") == -1
  {
    hide *;
    var raw := ws + key + " = ";
    BareSplits(ws, key);
    RebuiltReads(ws, key, "", "");
    NoValue();
    BodyReads(key, "");
    Blank();
    TrimFrame(ws, key + " =", " ");
    NoComment(raw, key + " =");
  }

  lemma BareSplits(ws: string, key: string)
    ensures ws + key + " = " == ws + key + " = " + "" + ""
    ensures ws + key + " = " == ws + (key + " =") + " "
    ensures key + " =" + "" == key + " =" && "" + "" == ""
  {
  }

  lemma NoComment(raw: string, s: string)
    requires Trim(raw) == s && ComInBody(s) < 0
    ensures ComOff(raw) == -1
  {
    hide ComInBody, Trim, Lead;
  }

  lemma NoValue()
    ensures ValueOf("") == "" && Plain("") && ComInRest("") == -1
  {
  }

  // ---- what the loader can read

  lemma StripIsPlain(y: string)
    requires Trimmed(y) && y != ""
    ensures var w := StripComment(y);
            w != "" && w <= y && forall j :: !CommentAt(w, j)
  {
    var w := StripComment(y);
    CommentFromMin(y, 0);
    forall j
      ensures !CommentAt(w, j)
    {
      if 1 <= j < |w| {
        assert w[j] == y[j] && w[j - 1] == y[j - 1];
        assert !CommentAt(y, j);
      }
    }
  }

  /** Whatever text stands behind the '=', the value read from it is plain. */
  lemma ValueIsPlain(x: string)
    ensures Plain(ValueOf(x))
  {
    hide LeadFrom, PastFrom, CommentFrom;
    var y := Trim(x);
    if y == "" {
      assert FindComment("") == 0;
      assert Trim("") == "";
    } else {
      StripIsPlain(y);
      var w := StripComment(y);
      assert w[0] == y[0];
      TrimHead(w, y[0]);
      var k := Trim(w);
      forall j | 0 <= j < |k|
        ensures !CommentAt(k, j)
      {
        assert !CommentAt(w, j);
      }
      CommentIs(k, |k|);
    }
  }

  // A comment run is blanks, a '#', and the rest.
  lemma CommentAsValue(v: string, c: string)
    requires AllSpace(v) && CommentRun(c)
    ensures ValueOf(v + c) != "" && ValueOf(v + c)[0] == '#'
  {
    hide Trim, FindComment, BlankRun;
    var n :| HashAfterBlanks(c, n);
    var s := v + c;
    assert forall i | 0 <= i < |v| :: s[i] == v[i];
    assert forall i | 0 <= i < |c| :: s[|v| + i] == c[i];
    forall i | 0 <= i < |v| + n
      ensures IsSpace(s[i])
    {
      if i >= |v| {
        assert s[i] == c[i - |v|];
      }
    }
    assert s[|v| + n] == '#';
    TrimFrom(s, |v| + n);
    StrippedComment(Trim(s));
  }

  // What is left of a text starts at its first ink.
  lemma TrimFrom(s: string, i: nat)
    requires i < |s| && !IsSpace(s[i]) && forall j | 0 <= j < i :: IsSpace(s[j])
    ensures Trim(s) != "" && Trim(s)[0] == s[i]
  {
    hide LeadFrom, PastFrom;
    LeadIs(s, i);
    PastAfter(s, |s|, i);
  }

  lemma StrippedComment(v: string)
    requires v != "" && v[0] == '#' && Trimmed(v)
    ensures Trim(StripComment(v)) != "" && Trim(StripComment(v))[0] == '#'
  {
    var w := StripComment(v);
    assert w != "" && w[0] == '#';
    TrimFrom(w, 0);
  }

  // ---- when a value reads back as itself

  lemma PlainReadsBack(v: string, c: string)
    requires Plain(v) && v != "" && (c != "" ==> CommentRun(c))
    ensures ValueOf(v + c) == v
  {
    hide *;
    CommentRunSplit(c);
    var d, tail := c[..Past(c)], c[Past(c)..];
    PlainIs(v);
    ValueBeforeComment(v, d);
    EndsInInk(v, d);
    TrimFrame("", v + d, tail);
    assert v + c == "" + (v + d) + tail;
    TrimOfTrimmed(v);
    ValueIs(v + c);
  }

  lemma PlainIs(v: string)
    ensures Plain(v) <==> Trimmed(v) && FindComment(v) == |v|
  {
    hide FindComment, Trimmed;
  }

  lemma EndsInInk(v: string, d: string)
    requires Trimmed(v) && v != "" && (d != "" ==> !IsSpace(d[|d| - 1]))
    ensures Trimmed(v + d) && v + d != ""
  {
    assert (v + d)[0] == v[0] && (v + d)[|v + d| - 1] == if d == "" then v[|v| - 1] else d[|d| - 1];
  }

  lemma ValueIs(x: string)
    ensures ValueOf(x) == Trim(StripComment(Trim(x)))
  {
    hide Trim, StripComment;
  }

  // A value that starts with ink does not grow by the comment behind it.
  lemma ValueNoLonger(v: string, c: string)
    requires v != "" && !IsSpace(v[0]) && (c != "" ==> CommentRun(c))
    ensures |ValueOf(v + c)| <= |v|
  {
    hide LeadFrom, PastFrom, CommentFrom;
    if c == "" {
      assert v + c == v;
    } else {
      var n :| HashAfterBlanks(c, n);
      var y := Trim(v + c);
      assert (v + c)[0] == v[0];
      TrimHead(v + c, v[0]);
      assert (v + c)[|v| + n] == c[n] == '#';
      PastAfter(v + c, |v + c|, |v| + n);
      LeadIs(v + c, 0);
      assert |y| > |v| + n;
      assert forall i | 0 <= i < |y| :: y[i] == (v + c)[i];
      assert forall i | |v| <= i < |v| + n :: y[i] == c[i - |v|];
      assert y[|v| + n - 1] == c[n - 1];
      assert CommentAt(y, |v| + n);
      CommentFromMin(y, 0);
      var q := FindComment(y);
      assert q <= |v| + n;
      RunStops(y, q, |v|);
    }
  }

  // The blanks before a comment reach back to where the value ends.
  lemma RunStops(y: string, q: nat, m: nat)
    requires q < |y| && 0 < m && forall i | m <= i < q :: IsBlank(y[i])
    ensures BlankRun(y, q) <= m
    decreases q
  {
    if q > m {
      RunStops(y, q - 1, m);
    }
  }

  /** A value that fits its buffer reads back as itself, in front of whatever comment,
      if and only if it is plain and, when it is empty, no comment follows. */
  lemma ReadBack(v: string, c: string)
    requires |v| < MAX_VAL && (c != "" ==> CommentRun(c))
    ensures Clip(ValueOf(v + c), MAX_VAL - 1) == v <==> Plain(v) && (v != "" || c == "")
  {
    hide ValueOf, Trim, FindComment;
    var x := ValueOf(v + c);
    ValueIsPlain(v + c);
    if v == "" {
      assert v + c == c;
      if c != "" {
        CommentAsValue("", c);
        assert "" + c == c;
      } else {
        NoValue();
      }
    } else {
      if Plain(v) {
        PlainReadsBack(v, c);
      }
      if Clip(x, MAX_VAL - 1) == v {
        assert x[0] == v[0];
        ValueNoLonger(v, c);
      }
    }
  }
}
