/** Which values a save keeps, and which it loses.

    The store accepts any value. One that is not trimmed, or that holds a blank and
    then a '#', is read back changed; an empty one in front of an inline comment that
    is kept reads back as the comment; one with a newline cannot be read at all. */
module ConfigEmptyValue {
  import opened CText
  import opened ConfigLines
  import opened ConfigValues
  import opened ConfigMeaning
  import opened ConfigStore
  import opened ConfigSave
  import opened ConfigSaveMeaning

  // The line that bound r's name last carries a comment, and there is room for it.
  predicate CommentStays(lines: seq<string>, r: Ref)
    requires r.KeyRef?
  {
    var h := LastHit(lines, |lines|, r);
    && h >= 0 && CommentOf(lines[h]) != ""
    && KeyEnd(lines[h]) + 3 + |r.value| + |CommentOf(lines[h])| < MAX_LINE
  }

  /** A value set over any file reads back from the saved file as itself if and only
      if it is trimmed, holds no comment and, when it is empty, no comment of the old
      line is kept behind it. */
  lemma ValueSurvives(text: string, refs: seq<Ref>, r: Ref)
    requires Orderly(refs) && r in refs && Live(r)
    ensures var after := Meaning(SurgicalText(text, refs));
            && RefName(r) in after
            && (after[RefName(r)] == r.value <==>
                  && Trimmed(r.value) && FindComment(r.value) == |r.value|
                  && (r.value != "" || !CommentStays(Lines(text), r)))
  {
    SaveMeaning(text, refs);
    hide Meaning, SurgicalText, Orderly, LastHit, CommentOf, KeyEnd;
    assert AppliedAt(Meaning(text), Meaning(SurgicalText(text, refs)), Lines(text), refs, RefName(r));
    assert SetTo(refs, RefName(r), r);
  }

  /** An empty value reads back as empty from the saved file exactly when no inline
      comment stays behind it; otherwise the comment is read in its place. */
  lemma EmptyValueAndComment(text: string, refs: seq<Ref>, r: Ref)
    requires Orderly(refs) && r in refs && Live(r) && r.value == ""
    ensures var after := Meaning(SurgicalText(text, refs));
            && RefName(r) in after
            && (after[RefName(r)] == "" <==> !CommentStays(Lines(text), r))
            && (after[RefName(r)] != "" ==> after[RefName(r)][0] == '#')
  {
    SaveMeaning(text, refs);
    SavedCommentRun(Lines(text), r);
    hide Meaning, SurgicalText, Orderly, ValueOf, Plain, LastHit, CommentOf, KeyEnd;
    var c := SavedComment(Lines(text), r);
    assert AppliedAt(Meaning(text), Meaning(SurgicalText(text, refs)), Lines(text), refs, RefName(r));
    assert SetTo(refs, RefName(r), r);
    NoValue();
    if c != "" {
      CommentAsValue("", c);
    }
  }

  // ---- values that no file can hold

  predicate AllBindsOneLine(binds: map<Name, string>) {
    forall n | n in binds :: OneLine(binds[n])
  }

  lemma {:induction false} LoadedOneLine(st: LoadState, lines: seq<string>)
    requires AllOneLine(lines) && AllBindsOneLine(st.binds)
    ensures AllBindsOneLine(Loaded(st, lines).binds)
    decreases |lines|
  {
    hide ParseLine, OneLine;
    if lines != [] {
      assert AllOneLine(lines[1..]);
      assert OneLine(lines[0]);
      LoadedOneLine(Step(st, lines[0]), lines[1..]);
    }
  }

  predicate Within(a: string, b: string) {
    forall c | c in a :: c in b
  }

  lemma TrimWithin(s: string)
    ensures Within(Trim(s), s)
  {
    hide Lead, Past;
  }

  lemma ValueWithin(x: string)
    ensures Within(ValueOf(x), x)
  {
    hide Trim, FindComment, BlankRun;
    TrimWithin(x);
    TrimWithin(StripComment(Trim(x)));
  }

  lemma RestWithin(s: string)
    ensures Within(AfterEq(s), s)
  {
    hide IndexOf;
  }

  lemma ValueInWithin(raw: string)
    ensures Within(ValueIn(raw), raw) && |ValueIn(raw)| < MAX_VAL
  {
    TrimWithin(raw);
    RestWithin(Trim(raw));
    ValueWithin(AfterEq(Trim(raw)));
    hide Trim, AfterEq, ValueOf, KeyText, IndexOf;
  }

  /** Whatever a file holds, no value read from it has a newline or fills its buffer. */
  lemma ReadsNoNewline(text: string, n: Name)
    requires n in Meaning(text)
    ensures OneLine(Meaning(text)[n]) && |Meaning(text)[n]| < MAX_VAL
  {
    LinesAreLines(text);
    LoadedOneLine(EMPTY, Lines(text));
    hide Loaded, Lines, ValueIn;
    ValueInWithin(Loaded(EMPTY, Lines(text)).binds[n]);
  }

  // ---- the comment that becomes a value

  const OLD: string := "k = a # b"

  lemma WitnessText()
    ensures Lines("[s]\nk = a # b\n") == ["[s]", OLD]
  {
    assert "[s]" + "\n" + "k = a # b\n" == "[s]\nk = a # b\n";
    assert OLD + "\n" + "" == "k = a # b\n";
    assert Lines("") == [];
    assert [OLD] + [] == [OLD];
    assert ["[s]"] + [OLD] == ["[s]", OLD];
    hide Lines;
    LinesCons("[s]", "k = a # b\n");
    LinesCons(OLD, "");
  }

  lemma WitnessHeader()
    ensures ParseLine("[s]") == Header("s")
  {
    assert "[" + "s" + "]" == "[s]";
    NewHeaderParses("s");
    hide ParseLine;
  }

  lemma WitnessKey()
    ensures ParseLine(OLD) == Bind("k", "a") && KeyEnd(OLD) == 1 && CommentOf(OLD) == " # b"
  {
    assert HashAfterBlanks(" # b", 1);
    assert "" + "k" + " = " + "a" + " # b" == OLD;
    assert OLD[5..] == " # b";
    hide ParseLine, ComOff, KeyEnd;
    NoCommentIn();
    RebuiltParses("", "k", "a", " # b");
  }

  lemma NoCommentIn()
    ensures FindComment("a") == 1
  {
  }

  lemma WitnessHit(r: Ref)
    requires r == KeyRef("s", "k", "", false)
    ensures LastHit(["[s]", OLD], 2, r) == 1 && KeptComment(OLD, r) == " # b"
  {
    WitnessHeader();
    WitnessKey();
    hide ParseLine, CommentOf, KeyEnd;
    SectionIs();
  }

  lemma SectionIs()
    ensures SecAt(["[s]", OLD], 1) == "s"
  {
    WitnessHeader();
    hide ParseLine;
  }

  lemma WitnessOrderly(r: Ref)
    requires r == KeyRef("s", "k", "", false)
    ensures Orderly([r]) && Live(r) && RefName(r) == ("s", "k")
  {
    assert Lower("s") == "s" && Lower("k") == "k";
  }

  lemma HashValue()
    ensures Clip(ValueOf("" + " # b"), MAX_VAL - 1) == "# b"
  {
    assert "" + " # b" == " " + "# b" + "";
    TrimFrame(" ", "# b", "");
    assert FindComment("# b") == 3;
    TrimOfTrimmed("# b");
  }

  /** Setting k to the empty value over the line `k = a # b` leaves k bound to the
      comment. */
  lemma CommentIsRead()
    ensures var r := KeyRef("s", "k", "", false);
            var after := Meaning(SurgicalText("[s]\nk = a # b\n", [r]));
            ("s", "k") in after && after[("s", "k")] == "# b"
  {
    hide *;
    var r := KeyRef("s", "k", "", false);
    WitnessText();
    WitnessHit(r);
    WitnessOrderly(r);
    HashValue();
    SaveMeaning("[s]\nk = a # b\n", [r]);
    SetIs("[s]\nk = a # b\n", r);
    KeptIs(r);
  }

  lemma KeptIs(r: Ref)
    requires r.KeyRef? && LastHit(["[s]", OLD], 2, r) == 1
    ensures SavedComment(["[s]", OLD], r) == KeptComment(OLD, r)
    ensures SavedValue(["[s]", OLD], r) == Clip(ValueOf(r.value + KeptComment(OLD, r)), MAX_VAL - 1)
  {
    hide LastHit, KeptComment, ValueOf;
    assert |["[s]", OLD]| == 2;
  }

  // What SaveMeaning says of the one reference of a list
  lemma SetIs(text: string, r: Ref)
    requires Live(r)
    requires forall n :: AppliedAt(Meaning(text), Meaning(SurgicalText(text, [r])), Lines(text), [r], n)
    ensures var after := Meaning(SurgicalText(text, [r]));
            RefName(r) in after && after[RefName(r)] == SavedValue(Lines(text), r)
  {
    hide Meaning, SurgicalText, Lines, SavedValue, RefName, Survives;
    assert AppliedAt(Meaning(text), Meaning(SurgicalText(text, [r])), Lines(text), [r], RefName(r));
    assert SetTo([r], RefName(r), r);
  }
}
