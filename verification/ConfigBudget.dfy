/** How much the save can write: the output buffer `config_write_surgical`
    allocates is never overrun, whatever the file and the dirty list. */
module ConfigBudget {
  import opened CText
  import opened ConfigLines
  import opened ConfigStore
  import opened ConfigSave
  import opened ConfigSaveMeaning
  import opened ConfigSaveStable

  // What the struct fields guarantee about a reference
  predicate Fits(r: Ref) {
    |r.sec| < MAX_SECN && (r.KeyRef? ==> |r.key| < MAX_KEY && |r.value| < MAX_VAL)
  }

  predicate AllFit(refs: seq<Ref>) {
    forall i | 0 <= i < |refs| :: Fits(refs[i])
  }

  // The size of the allocated output buffer
  function Capacity(tsize: nat, nlines: nat, ndirty: nat): nat {
    tsize + nlines + ndirty * (MAX_LINE + MAX_VAL + MAX_SECN + 16) + 16
  }

  const KEY_COST: nat := 322 // "key = value\n" at its longest
  const NEW_COST: nat := 389 // the same, with a header and a blank line
  const REF_COST: nat := 848

  lemma {:induction false} KeyLinesCost(rs: seq<Ref>)
    requires AllFit(rs)
    ensures |Unlines(KeyLines(rs))| <= KEY_COST * |rs|
  {
    if rs != [] {
      assert KeyLines(rs)[1..] == KeyLines(rs[1..]);
      assert Fits(rs[0]);
      KeyLinesCost(rs[1..]);
    }
  }

  lemma LandingFit(lines: seq<string>, refs: seq<Ref>, p: Place)
    requires AllFit(refs)
    ensures AllFit(Landing(lines, refs, p))
  {
    var rs := Landing(lines, refs, p);
    forall i | 0 <= i < |rs|
      ensures Fits(rs[i])
    {
      assert rs[i] in refs;
    }
  }

  lemma LandingCost(lines: seq<string>, refs: seq<Ref>, p: Place)
    requires AllFit(refs)
    ensures |Unlines(KeyLines(Landing(lines, refs, p)))| <= KEY_COST * |Landing(lines, refs, p)|
  {
    LandingFit(lines, refs, p);
    KeyLinesCost(Landing(lines, refs, p));
  }

  /** A rebuilt line is one the loader will read. */
  lemma RebuiltShort(raw: string, r: Ref)
    requires r.KeyRef? && Fits(r) && ParseLine(raw).Bind? && KeyEnd(raw) <= |raw|
    ensures |Rebuild(raw, r)| < MAX_LINE
  {
  }

  // ---- what each reference has cost before line l

  function Spent(lines: seq<string>, l: nat, r: Ref): nat {
    var h := LastHit(lines, |lines|, r);
    var a := Anchor(lines, |lines|, r);
    if !Live(r) then 0
    else if h >= 0 then (if h < l then MAX_LINE else 0)
    else if a >= 0 then (if a < l then KEY_COST else 0)
    else if r.sec == "" then KEY_COST
    else 0
  }

  function SumSpent(lines: seq<string>, l: nat, refs: seq<Ref>): nat {
    if refs == [] then 0 else Spent(lines, l, refs[0]) + SumSpent(lines, l, refs[1..])
  }

  // A live reference in the list is bound last at line l
  predicate RebuiltAt(lines: seq<string>, l: nat, refs: seq<Ref>) {
    exists i | 0 <= i < |refs| :: Live(refs[i]) && LastHit(lines, |lines|, refs[i]) == l
  }

  lemma {:induction false} TopCost(lines: seq<string>, refs: seq<Ref>)
    ensures KEY_COST * |Landing(lines, refs, AtTop)| <= SumSpent(lines, 0, refs)
  {
    if refs != [] {
      TopCost(lines, refs[1..]);
    }
  }

  lemma {:induction false} StepCost(lines: seq<string>, l: nat, refs: seq<Ref>)
    requires l < |lines|
    ensures SumSpent(lines, l + 1, refs) >= SumSpent(lines, l, refs) + KEY_COST * |Landing(lines, refs, AfterLine(l))|
                                            + (if RebuiltAt(lines, l, refs) then MAX_LINE else 0)
  {
    if refs != [] {
      StepCost(lines, l, refs[1..]);
      if RebuiltAt(lines, l, refs) {
        var i :| 0 <= i < |refs| && Live(refs[i]) && LastHit(lines, |lines|, refs[i]) == l;
        if i > 0 {
          assert refs[1..][i - 1] == refs[i];
        }
      }
    }
  }

  lemma HeadCost(lines: seq<string>, l: nat, refs: seq<Ref>)
    requires l < |lines| && AllFit(refs)
    ensures |Unlines(LineHead(lines, l, refs))|
         <= |lines[l]| + 1 + if RebuiltAt(lines, l, refs) then MAX_LINE else 0
  {
    var h := LineHead(lines, l, refs);
    if h != [] {
      assert h[1..] == [];
      assert |Unlines(h)| == |h[0]| + 1;
      if Rebuilds(lines, l, refs) {
        RebuildsKeyLine(lines, l, refs);
        var d := Rep(lines, l, refs);
        assert Fits(refs[d]);
        assert !TakenOut(lines, l, refs);
        RebuiltShort(lines[l], refs[d]);
        assert RebuiltAt(lines, l, refs);
      }
    }
  }

  lemma LineCost(lines: seq<string>, l: nat, refs: seq<Ref>)
    requires l < |lines| && AllFit(refs)
    ensures |Unlines(LineOut(lines, l, refs))| + SumSpent(lines, l, refs)
         <= |lines[l]| + 1 + SumSpent(lines, l + 1, refs)
  {
    UnlinesConcat(LineHead(lines, l, refs), KeyLines(Landing(lines, refs, AfterLine(l))));
    HeadCost(lines, l, refs);
    LandingCost(lines, refs, AfterLine(l));
    StepCost(lines, l, refs);
  }

  lemma UnlinesSnoc(lines: seq<string>, l: nat)
    requires l < |lines|
    ensures |Unlines(lines[..l + 1])| == |Unlines(lines[..l])| + |lines[l]| + 1
  {
    assert lines[..l + 1] == lines[..l] + [lines[l]];
    UnlinesConcat(lines[..l], [lines[l]]);
    assert [lines[l]][1..] == [];
  }

  lemma {:induction false} BodyCost(lines: seq<string>, l: nat, refs: seq<Ref>)
    requires l <= |lines| && AllFit(refs)
    ensures |Unlines(Body(lines, l, refs))| <= |Unlines(lines[..l])| + SumSpent(lines, l, refs)
  {
    hide *;
    if l == 0 {
      BodyTopCost(lines, refs);
    } else {
      BodyCost(lines, l - 1, refs);
      LineCost(lines, l - 1, refs);
      BodyStep(lines, l - 1, refs);
      UnlinesConcat(Body(lines, l - 1, refs), LineOut(lines, l - 1, refs));
      UnlinesSnoc(lines, l - 1);
    }
  }

  lemma BodyTopCost(lines: seq<string>, refs: seq<Ref>)
    requires AllFit(refs)
    ensures |Unlines(Body(lines, 0, refs))| <= |Unlines(lines[..0])| + SumSpent(lines, 0, refs)
  {
    LandingCost(lines, refs, AtTop);
    TopCost(lines, refs);
  }

  // ---- new sections

  // r still has to be written when the section loop reaches reference d
  predicate Pending(lines: seq<string>, refs: seq<Ref>, d: nat, r: Ref)
    requires d <= |refs|
  {
    IsNew(lines, r) && !OpenedBefore(lines, refs, d, r.sec)
  }

  function PendingCost(lines: seq<string>, refs: seq<Ref>, d: nat, sub: seq<Ref>): nat
    requires d <= |refs|
  {
    if sub == [] then 0
    else (if Pending(lines, refs, d, sub[0]) then NEW_COST else 0) + PendingCost(lines, refs, d, sub[1..])
  }

  lemma OpenedMonotone(lines: seq<string>, refs: seq<Ref>, d: nat, r: Ref)
    requires d < |refs|
    ensures Pending(lines, refs, d + 1, r) ==> Pending(lines, refs, d, r)
    ensures IsNew(lines, refs[d]) && EqNoCase(refs[d].sec, r.sec) ==> !Pending(lines, refs, d + 1, r)
  {
    assert IsNew(lines, refs[d]) && EqNoCase(refs[d].sec, r.sec) ==> OpenedBefore(lines, refs, d + 1, r.sec);
  }

  lemma OpenedCase(lines: seq<string>, refs: seq<Ref>, d: nat, a: string, b: string)
    requires d <= |refs| && EqNoCase(a, b)
    ensures OpenedBefore(lines, refs, d, a) <==> OpenedBefore(lines, refs, d, b)
  {
  }

  lemma {:induction false} OpenCost(lines: seq<string>, refs: seq<Ref>, d: nat, sub: seq<Ref>)
    requires d < |refs| && Opens(lines, refs, d)
    ensures PendingCost(lines, refs, d, sub)
         >= PendingCost(lines, refs, d + 1, sub) + NEW_COST * |Landing(lines, sub, InNew(refs[d].sec))|
  {
    if sub != [] {
      OpenCost(lines, refs, d, sub[1..]);
      OpenedMonotone(lines, refs, d, sub[0]);
      if Lands(lines, sub[0], InNew(refs[d].sec)) {
        OpenedCase(lines, refs, d, refs[d].sec, sub[0].sec);
      }
    }
  }

  lemma {:induction false} SkipCost(lines: seq<string>, refs: seq<Ref>, d: nat, sub: seq<Ref>)
    requires d < |refs|
    ensures PendingCost(lines, refs, d, sub) >= PendingCost(lines, refs, d + 1, sub)
  {
    if sub != [] {
      SkipCost(lines, refs, d, sub[1..]);
      OpenedMonotone(lines, refs, d, sub[0]);
    }
  }

  lemma {:induction false} LandingDrop(lines: seq<string>, refs: seq<Ref>, d: nat, p: Place)
    requires d <= |refs|
    ensures |Landing(lines, refs[d..], p)| <= |Landing(lines, refs, p)|
    decreases d
  {
    if d == 0 {
      assert refs[0..] == refs;
    } else {
      assert refs[d..] == refs[1..][d - 1..];
      LandingDrop(lines, refs[1..], d - 1, p);
    }
  }

  lemma NewSectionCost(lines: seq<string>, refs: seq<Ref>, d: nat, acc: seq<string>)
    requires d < |refs| && Opens(lines, refs, d) && AllFit(refs)
    ensures |Unlines(acc + Separator(acc) + NewSection(lines, refs, d))|
         <= |Unlines(acc)| + NEW_COST * |Landing(lines, refs[d..], InNew(refs[d].sec))|
  {
    var rs := Landing(lines, refs[d..], InNew(refs[d].sec));
    var header := "[" + refs[d].sec + "]";
    assert Fits(refs[d]);
    assert refs[d..][0] == refs[d];
    assert |rs| >= 1;
    UnlinesConcat(acc + Separator(acc), NewSection(lines, refs, d));
    UnlinesConcat(acc, Separator(acc));
    UnlinesConcat([header], KeyLines(rs));
    assert [header][1..] == [];
    assert |Unlines([header])| <= MAX_SECN + 2;
    SeparatorCost(acc);
    LandingCost(lines, refs[d..], InNew(refs[d].sec));
  }

  lemma SeparatorCost(acc: seq<string>)
    ensures |Unlines(Separator(acc))| <= 1
  {
    if Separator(acc) != [] {
      assert [""][1..] == [];
      assert Unlines([""]) == "" + "\n" + Unlines([]);
    }
  }

  lemma {:induction false} NewSectionsCost(lines: seq<string>, refs: seq<Ref>, d: nat, acc: seq<string>)
    requires d <= |refs| && AllFit(refs)
    ensures |Unlines(NewSections(lines, refs, d, acc))| <= |Unlines(acc)| + PendingCost(lines, refs, d, refs)
    decreases |refs| - d
  {
    if d < |refs| {
      if Opens(lines, refs, d) {
        var next := acc + Separator(acc) + NewSection(lines, refs, d);
        NewSectionsCost(lines, refs, d + 1, next);
        NewSectionCost(lines, refs, d, acc);
        OpenCost(lines, refs, d, refs);
        LandingDrop(lines, refs, d, InNew(refs[d].sec));
      } else {
        NewSectionsCost(lines, refs, d + 1, acc);
        SkipCost(lines, refs, d, refs);
      }
    }
  }

  // ---- the total

  lemma {:induction false} TotalCost(lines: seq<string>, l: nat, refs: seq<Ref>, sub: seq<Ref>)
    ensures SumSpent(lines, l, sub) + PendingCost(lines, refs, 0, sub) <= REF_COST * |sub|
  {
    if sub != [] {
      TotalCost(lines, l, refs, sub[1..]);
      if IsNew(lines, sub[0]) {
        NewMeetsNothing(lines, sub[0]);
      }
    }
  }

  lemma {:induction false} UnlinesOfLines(text: string)
    ensures |Unlines(Lines(text))| <= |text| + 1
    decreases |text|
  {
    if text != "" {
      var i := IndexOf(text, '\n');
      if i < |text| {
        UnlinesOfLines(text[i + 1..]);
        assert Lines(text)[1..] == Lines(text[i + 1..]);
      } else {
        assert Lines(text)[1..] == [];
      }
    }
  }

  /** Output budget: what a save writes, with the terminator of its last
      formatted write, fits the buffer it allocated. */
  lemma SaveFitsBuffer(text: string, refs: seq<Ref>)
    requires AllFit(refs)
    ensures |SurgicalText(text, refs)| < Capacity(|text|, |Lines(text)|, |refs|)
  {
    var lines := Lines(text);
    BodyCost(lines, |lines|, refs);
    NewSectionsCost(lines, refs, 0, Body(lines, |lines|, refs));
    TotalCost(lines, |lines|, refs, refs);
    UnlinesOfLines(text);
    assert lines[..|lines|] == lines;
  }
}
