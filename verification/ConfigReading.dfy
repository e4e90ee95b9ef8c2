/** What a text means, line by line and without the loader: the section a line is in,
    the names it binds, and the last line that binds a name. */
module ConfigReading {
  import opened CText
  import opened ConfigLines
  import opened ConfigMeaning
  import opened ConfigGrammar

  ghost predicate IsHeader(raw: string) {
    exists sec :: HeaderLine(raw, sec)
  }

  // The header above a line, and no other between them
  ghost predicate Heads(lines: seq<string>, l: nat, h: nat, sec: string)
    requires l <= |lines|
  {
    h < l && HeaderLine(lines[h], sec) && forall i | h < i < l :: !IsHeader(lines[i])
  }

  // The section line l is in
  ghost predicate InSection(lines: seq<string>, l: nat, sec: string)
    requires l <= |lines|
  {
    (exists h: nat :: Heads(lines, l, h, sec)) || (sec == "" && forall i | 0 <= i < l :: !IsHeader(lines[i]))
  }

  // Line l binds the name, up to case, the key cut to its buffer.
  ghost predicate Names(lines: seq<string>, l: nat, n: Name, sec: string, key: string, v: string)
    requires l < |lines|
  {
    && Binds(lines[l], key, v) && InSection(lines, l, sec)
    && n == (Lower(sec), Lower(if |key| < 64 then key else key[..63]))
  }

  ghost predicate BindsName(lines: seq<string>, l: nat, n: Name, v: string)
    requires l < |lines|
  {
    exists sec, key :: Names(lines, l, n, sec, key, v)
  }

  // The last of the first m lines that binds the name
  ghost predicate LastBinds(lines: seq<string>, m: nat, n: Name, l: nat, v: string)
    requires m <= |lines|
  {
    l < m && BindsName(lines, l, n, v) && forall j, w | l < j < m :: !BindsName(lines, j, n, w)
  }

  function StateAt(lines: seq<string>, m: nat): LoadState
    requires m <= |lines|
  {
    Loaded(EMPTY, lines[..m])
  }

  lemma StateNext(lines: seq<string>, m: nat)
    requires m < |lines|
    ensures StateAt(lines, m + 1) == Step(StateAt(lines, m), lines[m])
    ensures StateAt(lines, 0) == EMPTY && StateAt(lines, |lines|) == Loaded(EMPTY, lines)
  {
    hide Step;
    LoadedPrefix(EMPTY, lines, m);
    assert lines[..|lines|] == lines && lines[..0] == [];
  }

  lemma NotBoth(raw: string)
    ensures IsHeader(raw) <==> ParseLine(raw).Header?
    ensures forall key, v :: Binds(raw, key, v) ==> !IsHeader(raw)
  {
    hide ParseLine, Binds, HeaderLine;
    LineIs(raw);
    if ParseLine(raw).Header? {
      assert HeaderLine(raw, ParseLine(raw).sec);
    }
  }

  lemma NoSectionYet(lines: seq<string>, sec: string)
    ensures InSection(lines, 0, sec) <==> sec == StateAt(lines, 0).sec
  {
    hide HeaderLine;
    assert lines[..0] == [];
  }

  lemma HeaderStep(st: LoadState, raw: string)
    ensures ParseLine(raw).Header? ==> Step(st, raw).sec == ParseLine(raw).sec
    ensures !ParseLine(raw).Header? ==> Step(st, raw).sec == st.sec
  {
    hide ParseLine, NameOf;
  }

  lemma {:induction false} SectionIs(lines: seq<string>, m: nat, sec: string)
    requires m <= |lines|
    ensures InSection(lines, m, sec) <==> sec == StateAt(lines, m).sec
  {
    hide *;
    if m == 0 {
      NoSectionYet(lines, sec);
    } else {
      SectionIs(lines, m - 1, sec);
      StateNext(lines, m - 1);
      HeaderStep(StateAt(lines, m - 1), lines[m - 1]);
      NotBoth(lines[m - 1]);
      HeaderOf(lines[m - 1], sec);
      SectionNext(lines, m - 1, m, sec);
    }
  }

  lemma HeaderOf(raw: string, sec: string)
    ensures HeaderLine(raw, sec) <==> ParseLine(raw).Header? && ParseLine(raw).sec == sec
  {
    hide ParseLine, HeaderLine;
    LineIs(raw);
  }

  lemma SectionNext(lines: seq<string>, m: nat, k: nat, sec: string)
    requires m < |lines| && k == m + 1
    ensures IsHeader(lines[m]) ==> (InSection(lines, k, sec) <==> HeaderLine(lines[m], sec))
    ensures !IsHeader(lines[m]) ==> (InSection(lines, k, sec) <==> InSection(lines, m, sec))
  {
    hide HeaderLine, IsHeader;
    if IsHeader(lines[m]) {
      if HeaderLine(lines[m], sec) {
        assert Heads(lines, k, m, sec);
      }
      if exists h: nat :: Heads(lines, k, h, sec) {
        var h: nat :| Heads(lines, k, h, sec);
        assert h == m;
      }
    } else {
      if exists h: nat :: Heads(lines, m, h, sec) {
        var h: nat :| Heads(lines, m, h, sec);
        assert Heads(lines, k, h, sec);
      }
      if exists h: nat :: Heads(lines, k, h, sec) {
        var h: nat :| Heads(lines, k, h, sec);
        HeaderIsHeader(lines[h], sec);
        assert Heads(lines, m, h, sec);
      }
    }
  }

  lemma HeaderIsHeader(raw: string, sec: string)
    requires HeaderLine(raw, sec)
    ensures IsHeader(raw)
  {
    hide HeaderLine;
  }

  // What line m binds, in the loader's terms
  lemma BindsIs(lines: seq<string>, m: nat, n: Name, v: string)
    requires m < |lines|
    ensures BindsName(lines, m, n, v) <==>
              var p := ParseLine(lines[m]);
              p.Bind? && p.val == v && n == NameOf(StateAt(lines, m).sec, p.key)
  {
    hide ParseLine, Binds, InSection, Lower, StateAt;
    LineIs(lines[m]);
    var p := ParseLine(lines[m]);
    if BindsName(lines, m, n, v) {
      var sec, key :| Names(lines, m, n, sec, key, v);
      SectionIs(lines, m, sec);
    }
    if p.Bind? && p.val == v && n == NameOf(StateAt(lines, m).sec, p.key) {
      SectionIs(lines, m, StateAt(lines, m).sec);
      assert Names(lines, m, n, StateAt(lines, m).sec, p.key, v);
    }
  }

  predicate Bound(st: LoadState, n: Name, v: string) {
    n in st.binds && ParseLine(st.binds[n]).Bind? && ParseLine(st.binds[n]).val == v
  }

  lemma StepBinds(st: LoadState, raw: string, n: Name, v: string)
    ensures var p := ParseLine(raw);
            var here := p.Bind? && n == NameOf(st.sec, p.key);
            && (here ==> (Bound(Step(st, raw), n, v) <==> p.val == v) && n in Step(st, raw).binds)
            && (!here ==> (Bound(Step(st, raw), n, v) <==> Bound(st, n, v))
                          && (n in Step(st, raw).binds <==> n in st.binds))
  {
    hide ParseLine, NameOf;
  }

  lemma LastNext(lines: seq<string>, m: nat, k: nat, n: Name, l: nat, v: string)
    requires m < |lines| && k == m + 1
    ensures (exists w :: BindsName(lines, m, n, w)) ==>
              (LastBinds(lines, k, n, l, v) <==> l == m && BindsName(lines, m, n, v))
    ensures (forall w :: !BindsName(lines, m, n, w)) ==>
              (LastBinds(lines, k, n, l, v) <==> LastBinds(lines, m, n, l, v))
  {
    hide BindsName;
  }

  lemma {:induction false} LastIsBound(lines: seq<string>, m: nat, n: Name, v: string)
    requires m <= |lines|
    ensures Bound(StateAt(lines, m), n, v) <==> exists l :: LastBinds(lines, m, n, l, v)
  {
    hide *;
    if m == 0 {
      NothingYet(lines, n, v);
    } else {
      var k := m - 1;
      LastIsBound(lines, k, n, v);
      StateNext(lines, k);
      StepBinds(StateAt(lines, k), lines[k], n, v);
      BindsIs(lines, k, n, v);
      var p := ParseLine(lines[k]);
      if p.Bind? && n == NameOf(StateAt(lines, k).sec, p.key) {
        BindsIs(lines, k, n, p.val);
        LastNext(lines, k, m, n, k, v);
        forall l: nat
          ensures LastBinds(lines, m, n, l, v) <==> l == k && BindsName(lines, k, n, v)
        {
          LastNext(lines, k, m, n, l, v);
        }
      } else {
        forall w
          ensures !BindsName(lines, k, n, w)
        {
          BindsIs(lines, k, n, w);
        }
        forall l: nat
          ensures LastBinds(lines, m, n, l, v) <==> LastBinds(lines, k, n, l, v)
        {
          LastNext(lines, k, m, n, l, v);
        }
      }
    }
  }

  lemma NothingYet(lines: seq<string>, n: Name, v: string)
    ensures !Bound(StateAt(lines, 0), n, v)
    ensures forall l :: !LastBinds(lines, 0, n, l, v)
  {
    assert lines[..0] == [];
  }

  // Line l binds the name to x at last, and v is what fits the buffer of it.
  ghost predicate Gives(lines: seq<string>, n: Name, l: nat, x: string, v: string) {
    LastBinds(lines, |lines|, n, l, x) && v == if |x| < 256 then x else x[..255]
  }

  /** The meaning of a text: a name has a value if and only if some line of its section
      binds it to that value, cut to its buffer, and no later line binds it. */
  lemma MeaningIs(text: string, n: Name, v: string)
    ensures n in Meaning(text) && Meaning(text)[n] == v <==> exists l, x :: Gives(Lines(text), n, l, x, v)
  {
    hide *;
    var lines := Lines(text);
    StateWhole(lines);
    var st := StateAt(lines, |lines|);
    OnlyBinds(lines);
    MeaningBound(text, n);
    if n in st.binds {
      var x := ParseLine(st.binds[n]).val;
      BoundIs(st, n);
      LastIsBound(lines, |lines|, n, x);
      var l :| LastBinds(lines, |lines|, n, l, x);
      GivesIs(lines, n, l, x, Clip(x, 255));
      if exists l, x :: Gives(lines, n, l, x, v) {
        var l', x' :| Gives(lines, n, l', x', v);
        GivesIs(lines, n, l', x', v);
        LastIsBound(lines, |lines|, n, x');
        BoundOne(st, n, x, x');
      }
    } else if exists l, x :: Gives(lines, n, l, x, v) {
      var l, x :| Gives(lines, n, l, x, v);
      GivesIs(lines, n, l, x, v);
      LastIsBound(lines, |lines|, n, x);
      BoundIn(st, n, x);
    }
  }

  lemma StateWhole(lines: seq<string>)
    ensures StateAt(lines, |lines|) == Loaded(EMPTY, lines)
  {
    assert lines[..|lines|] == lines;
  }

  lemma MeaningBound(text: string, n: Name)
    ensures var st := Loaded(EMPTY, Lines(text));
            && (n in Meaning(text) <==> n in st.binds)
            && (n in st.binds && ParseLine(st.binds[n]).Bind? ==>
                  Meaning(text)[n] == Clip(ParseLine(st.binds[n]).val, 255))
  {
    hide ParseLine, Loaded, Lines;
  }

  lemma BoundIs(st: LoadState, n: Name)
    requires n in st.binds && ParseLine(st.binds[n]).Bind?
    ensures Bound(st, n, ParseLine(st.binds[n]).val)
  {
    hide ParseLine;
  }

  lemma BoundIn(st: LoadState, n: Name, x: string)
    requires Bound(st, n, x)
    ensures n in st.binds
  {
    hide ParseLine;
  }

  lemma BoundOne(st: LoadState, n: Name, x: string, y: string)
    requires Bound(st, n, x) && Bound(st, n, y)
    ensures x == y
  {
    hide ParseLine;
  }

  lemma GivesIs(lines: seq<string>, n: Name, l: nat, x: string, v: string)
    ensures Gives(lines, n, l, x, v) <==> LastBinds(lines, |lines|, n, l, x) && v == Clip(x, 255)
  {
    hide LastBinds;
  }

  lemma {:induction false} BindsOnly(st: LoadState, lines: seq<string>)
    requires forall n | n in st.binds :: ParseLine(st.binds[n]).Bind?
    ensures forall n | n in Loaded(st, lines).binds :: ParseLine(Loaded(st, lines).binds[n]).Bind?
    decreases |lines|
  {
    hide ParseLine, NameOf;
    if lines != [] {
      BindsOnly(Step(st, lines[0]), lines[1..]);
    }
  }

  lemma OnlyBinds(lines: seq<string>)
    ensures forall n | n in Loaded(EMPTY, lines).binds :: ParseLine(Loaded(EMPTY, lines).binds[n]).Bind?
  {
    hide ParseLine, Loaded;
    BindsOnly(EMPTY, lines);
  }

  // ---- the alphabet, and where lines end

  /** White space is the blank and the five controls from the tab to the return. */
  lemma SpaceIs(c: char)
    ensures IsSpace(c) <==> c as int == 32 || 9 <= c as int <= 13
    ensures IsBlank(c) <==> c as int == 32 || c as int == 9
  {
  }

  // The same letter in either case, or the same character
  predicate SameLetter(c: char, d: char) {
    || c == d
    || ('A' <= c <= 'Z' && d as int == c as int + 32)
    || ('A' <= d <= 'Z' && c as int == d as int + 32)
  }

  /** Names are compared letter by letter, the letters of ASCII in either case. */
  lemma SameButCase(a: string, b: string)
    ensures EqNoCase(a, b) <==> |a| == |b| && forall i | 0 <= i < |a| :: SameLetter(a[i], b[i])
  {
    if |a| == |b| {
      forall i | 0 <= i < |a|
        ensures Lower(a)[i] == Lower(b)[i] <==> SameLetter(a[i], b[i])
      {
        LetterLower(a[i], b[i]);
      }
      if EqNoCase(a, b) {
        assert forall i | 0 <= i < |a| :: Lower(a)[i] == Lower(b)[i];
      }
    }
  }

  lemma LetterLower(c: char, d: char)
    ensures ToLower(c) == ToLower(d) <==> SameLetter(c, d)
  {
  }

  lemma CutAt(text: string, i: nat)
    requires i < |text| && text[i] == '\n'
    ensures text == text[..i] + "\n" + text[i + 1..]
    ensures text + "\n" == text[..i] + "\n" + (text[i + 1..] + "\n")
    ensures i + 1 < |text| ==> text[i + 1..][|text[i + 1..]| - 1] == text[|text| - 1]
    ensures i + 1 == |text| ==> text[i + 1..] == ""
  {
  }

  lemma LinesAre(text: string)
    requires text != ""
    ensures var i := IndexOf(text, '\n');
            if i == |text| then Lines(text) == [text] && text[|text| - 1] != '\n'
            else Lines(text) == [text[..i]] + Lines(text[i + 1..])
  {
    hide IndexOf;
    IndexMin(text, '\n');
  }

  lemma UnlinesCons(a: string, rest: seq<string>)
    ensures Unlines([a] + rest) == a + "\n" + Unlines(rest) && Unlines([]) == ""
  {
    assert ([a] + rest)[1..] == rest;
  }

  /** The lines written one by one are the text, with a newline behind the last of
      them if the text has none. */
  lemma {:induction false} UnlinesOfLines(text: string)
    ensures Unlines(Lines(text)) == if text == "" || text[|text| - 1] == '\n' then text else text + "\n"
    decreases |text|
  {
    hide *;
    if text == "" {
      NoLines();
    } else {
      LinesAre(text);
      var i := IndexOf(text, '\n');
      if i == |text| {
        UnlinesCons(text, []);
        assert [text] + [] == [text];
        assert text + "\n" + "" == text + "\n";
      } else {
        UnlinesOfLines(text[i + 1..]);
        CutAt(text, i);
        UnlinesCons(text[..i], Lines(text[i + 1..]));
      }
    }
  }

  lemma NoLines()
    ensures Lines("") == [] && Unlines([]) == ""
  {
  }
}
