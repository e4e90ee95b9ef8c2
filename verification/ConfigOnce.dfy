/** Which reference each line of a saved file was written for, and how often each
    live reference is written.

    The marks run along the output line by line, built as the output is built. They
    are truthful about the text of each line, and they count: a live reference is
    written once, or not at all when its line is dropped or belongs to an earlier
    reference. */
module ConfigOnce {
  import opened Basics
  import opened CText
  import opened ConfigLines
  import opened ConfigMeaning
  import opened ConfigStore
  import opened ConfigSave
  import opened ConfigSaveMeaning
  import opened ConfigSaveStable

  // For each line: the place in the list of the reference it was written for, or none
  type Marks = seq<Option<nat>>

  // The marks of Landing(lines, refs[d..], p)
  function LandMarks(lines: seq<string>, refs: seq<Ref>, d: nat, p: Place): Marks
    requires d <= |refs|
    decreases |refs| - d
  {
    if d == |refs| then []
    else (if Lands(lines, refs[d], p) then [Some(d)] else []) + LandMarks(lines, refs, d + 1, p)
  }

  function HeadMarks(lines: seq<string>, l: nat, refs: seq<Ref>): (ms: Marks)
    requires l < |lines|
    ensures |ms| == |LineHead(lines, l, refs)|
  {
    if Dropped(lines, l, refs) then []
    else if Rebuilds(lines, l, refs) then [Some(Rep(lines, l, refs))]
    else [None]
  }

  function BodyMarks(lines: seq<string>, n: nat, refs: seq<Ref>): Marks
    requires n <= |lines|
  {
    if n == 0 then LandMarks(lines, refs, 0, AtTop)
    else BodyMarks(lines, n - 1, refs)
         + (HeadMarks(lines, n - 1, refs) + LandMarks(lines, refs, 0, AfterLine(n - 1)))
  }

  function SectionMarks(lines: seq<string>, refs: seq<Ref>, d: nat, acc: seq<string>): Marks
    requires d < |refs|
  {
    (if Separator(acc) == [] then [None] else [None, None]) + LandMarks(lines, refs, d, InNew(refs[d].sec))
  }

  function NewMarks(lines: seq<string>, refs: seq<Ref>, d: nat, acc: seq<string>, ms: Marks): Marks
    requires d <= |refs|
    decreases |refs| - d
  {
    if d == |refs| then ms
    else if Opens(lines, refs, d) then
      NewMarks(lines, refs, d + 1, acc + Separator(acc) + NewSection(lines, refs, d),
               ms + SectionMarks(lines, refs, d, acc))
    else NewMarks(lines, refs, d + 1, acc, ms)
  }

  function SavedMarks(lines: seq<string>, refs: seq<Ref>): Marks {
    NewMarks(lines, refs, 0, Body(lines, |lines|, refs), BodyMarks(lines, |lines|, refs))
  }

  // ---- the marks tell the truth

  // A line written for r: its key line, or the line that bound it last, rebuilt
  predicate WrittenFor(lines: seq<string>, r: Ref, x: string) {
    || x == KeyLine(r)
    || (exists l | 0 <= l < |lines| :: RebuiltFor(lines, l, r, x))
  }

  predicate RebuiltFor(lines: seq<string>, l: nat, r: Ref, x: string)
    requires l < |lines|
  {
    && LastHit(lines, |lines|, r) == l && r.KeyRef?
    && ParseLine(lines[l]).Bind? && KeyEnd(lines[l]) <= |lines[l]| && x == Rebuild(lines[l], r)
  }

  predicate MarkedFor(lines: seq<string>, refs: seq<Ref>, x: string, m: Option<nat>) {
    m.Some? ==> m.value < |refs| && WrittenFor(lines, refs[m.value], x)
  }

  predicate Truthful(lines: seq<string>, refs: seq<Ref>, out: seq<string>, ms: Marks) {
    |ms| == |out| && forall i | 0 <= i < |out| :: MarkedFor(lines, refs, out[i], ms[i])
  }

  lemma TruthfulAppend(lines: seq<string>, refs: seq<Ref>, a: seq<string>, b: seq<string>, p: Marks, q: Marks)
    requires Truthful(lines, refs, a, p) && Truthful(lines, refs, b, q)
    ensures Truthful(lines, refs, a + b, p + q)
  {
    hide MarkedFor;
  }

  lemma LandUnfold(lines: seq<string>, refs: seq<Ref>, d: nat, p: Place)
    requires d <= |refs|
    ensures d == |refs| ==> LandMarks(lines, refs, d, p) == [] && KeyLines(Landing(lines, refs[d..], p)) == []
    ensures d < |refs| ==>
              && LandMarks(lines, refs, d, p)
                 == (if Lands(lines, refs[d], p) then [Some(d)] else []) + LandMarks(lines, refs, d + 1, p)
              && KeyLines(Landing(lines, refs[d..], p))
                 == (if Lands(lines, refs[d], p) then [KeyLine(refs[d])] else [])
                    + KeyLines(Landing(lines, refs[d + 1..], p))
  {
    hide Lands, KeyLine;
    if d < |refs| {
      var rest := Landing(lines, refs[d + 1..], p);
      assert refs[d..][0] == refs[d] && refs[d..][1..] == refs[d + 1..];
      assert ([refs[d]] + rest)[1..] == rest;
      assert [] + rest == rest;
    }
  }

  lemma {:induction false} LandTruthful(lines: seq<string>, refs: seq<Ref>, d: nat, p: Place)
    requires d <= |refs|
    ensures Truthful(lines, refs, KeyLines(Landing(lines, refs[d..], p)), LandMarks(lines, refs, d, p))
    decreases |refs| - d
  {
    LandUnfold(lines, refs, d, p);
    hide Landing, KeyLines, LandMarks, Lands, KeyLine;
    if d < |refs| {
      LandTruthful(lines, refs, d + 1, p);
      var line, mark := [KeyLine(refs[d])], [Some(d)];
      if Lands(lines, refs[d], p) {
        TruthfulAppend(lines, refs, line, KeyLines(Landing(lines, refs[d + 1..], p)), mark, LandMarks(lines, refs, d + 1, p));
      } else {
        TruthfulAppend(lines, refs, [], KeyLines(Landing(lines, refs[d + 1..], p)), [], LandMarks(lines, refs, d + 1, p));
      }
    }
  }

  lemma AllTruthful(lines: seq<string>, refs: seq<Ref>, p: Place)
    ensures Truthful(lines, refs, KeyLines(Landing(lines, refs, p)), LandMarks(lines, refs, 0, p))
  {
    LandTruthful(lines, refs, 0, p);
    assert refs[0..] == refs;
  }

  lemma HeadTruthful(lines: seq<string>, l: nat, refs: seq<Ref>)
    requires l < |lines|
    ensures Truthful(lines, refs, LineHead(lines, l, refs), HeadMarks(lines, l, refs))
  {
    if Rebuilds(lines, l, refs) {
      RebuildsKeyLine(lines, l, refs);
      hide ParseLine, LastHit, Dropped, KeyEnd, Rebuild, KeyLine;
      var r := refs[Rep(lines, l, refs)];
      assert RebuiltFor(lines, l, r, Rebuild(lines[l], r));
    }
  }

  lemma {:induction false} BodyTruthful(lines: seq<string>, n: nat, refs: seq<Ref>)
    requires n <= |lines|
    ensures Truthful(lines, refs, Body(lines, n, refs), BodyMarks(lines, n, refs))
  {
    hide *;
    BodyUnfold(lines, n, refs);
    MarksUnfold(lines, n, refs);
    if n == 0 {
      AllTruthful(lines, refs, AtTop);
    } else {
      var p := AfterLine(n - 1);
      BodyTruthful(lines, n - 1, refs);
      HeadTruthful(lines, n - 1, refs);
      AllTruthful(lines, refs, p);
      TruthfulAppend(lines, refs, LineHead(lines, n - 1, refs), KeyLines(Landing(lines, refs, p)),
                     HeadMarks(lines, n - 1, refs), LandMarks(lines, refs, 0, p));
      TruthfulAppend(lines, refs, Body(lines, n - 1, refs), LineOut(lines, n - 1, refs),
                     BodyMarks(lines, n - 1, refs), HeadMarks(lines, n - 1, refs) + LandMarks(lines, refs, 0, p));
    }
  }

  lemma MarksUnfold(lines: seq<string>, n: nat, refs: seq<Ref>)
    requires n <= |lines|
    ensures n == 0 ==> BodyMarks(lines, n, refs) == LandMarks(lines, refs, 0, AtTop)
    ensures n > 0 ==>
              BodyMarks(lines, n, refs)
              == BodyMarks(lines, n - 1, refs)
                 + (HeadMarks(lines, n - 1, refs) + LandMarks(lines, refs, 0, AfterLine(n - 1)))
  {
    hide HeadMarks, LandMarks;
  }

  lemma SectionTruthful(lines: seq<string>, refs: seq<Ref>, d: nat, acc: seq<string>)
    requires d < |refs|
    ensures Truthful(lines, refs, Separator(acc) + NewSection(lines, refs, d), SectionMarks(lines, refs, d, acc))
  {
    hide WrittenFor, KeyLines, LandMarks, Landing;
    var rs := Landing(lines, refs[d..], InNew(refs[d].sec));
    var header := ["[" + refs[d].sec + "]"];
    LandTruthful(lines, refs, d, InNew(refs[d].sec));
    var front: Marks := if Separator(acc) == [] then [None] else [None, None];
    assert Truthful(lines, refs, Separator(acc) + header, front);
    TruthfulAppend(lines, refs, Separator(acc) + header, KeyLines(rs), front, LandMarks(lines, refs, d, InNew(refs[d].sec)));
    assert Separator(acc) + header + KeyLines(rs) == Separator(acc) + (header + KeyLines(rs));
  }

  lemma {:induction false} NewTruthful(lines: seq<string>, refs: seq<Ref>, d: nat, acc: seq<string>, ms: Marks)
    requires d <= |refs| && Truthful(lines, refs, acc, ms)
    ensures Truthful(lines, refs, NewSections(lines, refs, d, acc), NewMarks(lines, refs, d, acc, ms))
    decreases |refs| - d
  {
    hide Truthful, Opens, NewSection, Separator, SectionMarks;
    if d < |refs| {
      if Opens(lines, refs, d) {
        SectionTruthful(lines, refs, d, acc);
        TruthfulAppend(lines, refs, acc, Separator(acc) + NewSection(lines, refs, d), ms,
                       SectionMarks(lines, refs, d, acc));
        assert acc + (Separator(acc) + NewSection(lines, refs, d)) == acc + Separator(acc) + NewSection(lines, refs, d);
        NewTruthful(lines, refs, d + 1, acc + Separator(acc) + NewSection(lines, refs, d),
                    ms + SectionMarks(lines, refs, d, acc));
      } else {
        NewTruthful(lines, refs, d + 1, acc, ms);
      }
    }
  }

  /** Every line of the saved file that is marked with a reference is that
      reference's key line, or the line that bound it last, rebuilt for it. */
  lemma MarksAreTruthful(lines: seq<string>, refs: seq<Ref>)
    ensures Truthful(lines, refs, SurgicalLines(lines, refs), SavedMarks(lines, refs))
  {
    hide Truthful, Body, BodyMarks, NewSections, NewMarks;
    BodyTruthful(lines, |lines|, refs);
    NewTruthful(lines, refs, 0, Body(lines, |lines|, refs), BodyMarks(lines, |lines|, refs));
  }

  // ---- how often a reference is marked

  function Times(ms: Marks, e: nat): nat {
    multiset(ms)[Some(e)]
  }

  lemma TimesAppend(a: Marks, b: Marks, e: nat)
    ensures Times(a + b, e) == Times(a, e) + Times(b, e)
  {
  }

  function Bit(b: bool): nat {
    if b then 1 else 0
  }

  lemma {:induction false} LandTimes(lines: seq<string>, refs: seq<Ref>, d: nat, p: Place, e: nat)
    requires d <= |refs|
    ensures Times(LandMarks(lines, refs, d, p), e) == Bit(d <= e < |refs| && Lands(lines, refs[e], p))
    decreases |refs| - d
  {
    hide *;
    LandMarksUnfold(lines, refs, d, p);
    if d < |refs| {
      LandTimes(lines, refs, d + 1, p, e);
      TimesAppend(Mark(d, Lands(lines, refs[d], p)), LandMarks(lines, refs, d + 1, p), e);
      MarkTimes(d, Lands(lines, refs[d], p), e);
      LandBits(lines, refs, d, p, e);
    } else {
      NoTimes(e);
    }
  }

  function Mark(d: nat, b: bool): Marks {
    if b then [Some(d)] else []
  }

  lemma LandMarksUnfold(lines: seq<string>, refs: seq<Ref>, d: nat, p: Place)
    requires d <= |refs|
    ensures d == |refs| ==> LandMarks(lines, refs, d, p) == []
    ensures d < |refs| ==>
              LandMarks(lines, refs, d, p) == Mark(d, Lands(lines, refs[d], p)) + LandMarks(lines, refs, d + 1, p)
  {
    hide Lands;
  }

  lemma MarkTimes(d: nat, b: bool, e: nat)
    ensures Times(Mark(d, b), e) == Bit(b && d == e)
  {
  }

  lemma NoTimes(e: nat)
    ensures Times([], e) == 0 && Bit(false) == 0
  {
  }

  lemma LandBits(lines: seq<string>, refs: seq<Ref>, d: nat, p: Place, e: nat)
    requires d < |refs|
    ensures Bit(d <= e < |refs| && Lands(lines, refs[e], p))
         == Bit(Lands(lines, refs[d], p) && d == e) + Bit(d + 1 <= e < |refs| && Lands(lines, refs[e], p))
  {
    hide Lands;
  }

  /** Reference e gets a line: the file has none for it, or its last one is not
      dropped and no earlier live reference is bound there last. */
  predicate Reaches(lines: seq<string>, refs: seq<Ref>, e: nat)
    requires e < |refs|
  {
    var h := LastHit(lines, |lines|, refs[e]);
    h >= 0 ==> !InRemoved(lines, h, refs) && !TakenOut(lines, h, refs) && !Earlier(lines, h, refs, e)
  }

  predicate Earlier(lines: seq<string>, h: nat, refs: seq<Ref>, e: nat)
    requires e <= |refs|
  {
    exists d | 0 <= d < e :: Live(refs[d]) && LastHit(lines, |lines|, refs[d]) == h
  }

  // The line of a live reference is dropped just for its section or for an unset.
  lemma DropsKeyLine(lines: seq<string>, h: nat, refs: seq<Ref>)
    requires h < |lines| && ParseLine(lines[h]).Bind?
    ensures Dropped(lines, h, refs) <==> InRemoved(lines, h, refs) || TakenOut(lines, h, refs)
  {
    BoundNonBlank(lines[h]);
    hide ParseLine, TakenOut, NonBlank;
  }

  // Whoever is bound last at a kept key line is live.
  lemma BoundIsLive(lines: seq<string>, h: nat, refs: seq<Ref>, d: nat)
    requires h < |lines| && d < |refs| && ParseLine(lines[h]).Bind? && !TakenOut(lines, h, refs)
    requires LastHit(lines, |lines|, refs[d]) == h
    ensures Live(refs[d])
  {
    assert Hits(lines, h, refs[d]);
    hide ParseLine;
  }

  lemma EarlierRep(lines: seq<string>, h: nat, refs: seq<Ref>, e: nat)
    requires h < |lines| && e <= |refs| && Earlier(lines, h, refs, e)
    ensures Rep(lines, h, refs) < e
  {
    hide LastHit, RepFrom;
    var d :| 0 <= d < e && Live(refs[d]) && LastHit(lines, |lines|, refs[d]) == h;
    RepFound(lines, h, refs, 0, d);
  }

  // A kept key line is rewritten for the first live reference that is bound last there.
  lemma RepIs(lines: seq<string>, h: nat, refs: seq<Ref>, e: nat)
    requires h < |lines| && e < |refs| && ParseLine(lines[h]).Bind? && !TakenOut(lines, h, refs)
    requires LastHit(lines, |lines|, refs[e]) == h
    ensures Rep(lines, h, refs) == e <==> !Earlier(lines, h, refs, e)
  {
    RepFound(lines, h, refs, 0, e);
    var q := Rep(lines, h, refs);
    BoundIsLive(lines, h, refs, q);
    if Earlier(lines, h, refs, e) {
      EarlierRep(lines, h, refs, e);
    }
    hide LastHit, RepFrom, ParseLine, TakenOut;
    if q < e {
      assert Earlier(lines, h, refs, e);
    }
  }

  lemma HeadReaches(lines: seq<string>, l: nat, refs: seq<Ref>, e: nat)
    requires l < |lines| && e < |refs| && Live(refs[e]) && LastHit(lines, |lines|, refs[e]) == l
    ensures Rebuilds(lines, l, refs) && Rep(lines, l, refs) == e <==> Reaches(lines, refs, e)
  {
    SameNames(lines, l, refs[e]);
    DropsKeyLine(lines, l, refs);
    if !TakenOut(lines, l, refs) {
      RepIs(lines, l, refs, e);
    }
    hide LastHit, RepFrom, ParseLine, TakenOut, InRemoved, Dropped, Earlier;
  }

  lemma HeadTimes(lines: seq<string>, l: nat, refs: seq<Ref>, e: nat)
    requires l < |lines| && e < |refs| && Live(refs[e])
    ensures Times(HeadMarks(lines, l, refs), e) == Bit(LastHit(lines, |lines|, refs[e]) == l && Reaches(lines, refs, e))
  {
    if LastHit(lines, |lines|, refs[e]) == l {
      HeadReaches(lines, l, refs, e);
    }
    hide Dropped, LastHit, RepFrom, Reaches, Hits, ParseLine;
  }

  lemma {:induction false} BodyTimes(lines: seq<string>, n: nat, refs: seq<Ref>, e: nat)
    requires n <= |lines| && e < |refs| && Live(refs[e])
    ensures Times(BodyMarks(lines, n, refs), e) == Bit(Written(lines, n, refs[e]) && Reaches(lines, refs, e))
  {
    hide *;
    MarksUnfold(lines, n, refs);
    if n == 0 {
      LandTimes(lines, refs, 0, AtTop, e);
      TopWritten(lines, refs, e);
    } else {
      var p := AfterLine(n - 1);
      BodyTimes(lines, n - 1, refs, e);
      HeadTimes(lines, n - 1, refs, e);
      LandTimes(lines, refs, 0, p, e);
      TimesAppend(HeadMarks(lines, n - 1, refs), LandMarks(lines, refs, 0, p), e);
      TimesAppend(BodyMarks(lines, n - 1, refs), HeadMarks(lines, n - 1, refs) + LandMarks(lines, refs, 0, p), e);
      NextWritten(lines, n - 1, refs, e);
      OneLand(lines, refs, p, e);
    }
  }

  lemma OneLand(lines: seq<string>, refs: seq<Ref>, p: Place, e: nat)
    requires e < |refs|
    ensures Bit(0 <= e < |refs| && Lands(lines, refs[e], p)) == Bit(Lands(lines, refs[e], p))
  {
  }

  lemma TopWritten(lines: seq<string>, refs: seq<Ref>, e: nat)
    requires e < |refs| && Live(refs[e])
    ensures Bit(0 <= e < |refs| && Lands(lines, refs[e], AtTop))
         == Bit(Written(lines, 0, refs[e]) && Reaches(lines, refs, e))
  {
    hide LastHit, Anchor, InRemoved, TakenOut, Earlier;
  }

  // A reference is written with line l, behind it, or not there.
  lemma NextWritten(lines: seq<string>, l: nat, refs: seq<Ref>, e: nat)
    requires l < |lines| && e < |refs| && Live(refs[e])
    ensures var r, ok := refs[e], Reaches(lines, refs, e);
            Bit(Written(lines, l + 1, r) && ok)
            == Bit(Written(lines, l, r) && ok) + Bit(LastHit(lines, |lines|, r) == l && ok)
               + Bit(Lands(lines, r, AfterLine(l)))
  {
    hide LastHit, Anchor, InRemoved, TakenOut, Earlier;
  }

  lemma SectionTimes(lines: seq<string>, refs: seq<Ref>, d: nat, acc: seq<string>, e: nat)
    requires d < |refs| && Opens(lines, refs, d) && e < |refs| && Live(refs[e])
    ensures Times(SectionMarks(lines, refs, d, acc), e)
         == Bit(IsNew(lines, refs[e]) && EqNoCase(refs[d].sec, refs[e].sec))
  {
    hide *;
    LandTimes(lines, refs, d, InNew(refs[d].sec), e);
    LandsInNew(lines, refs[d].sec, refs[e]);
    FrontTimes(lines, refs, d, acc, e);
    if e < d {
      NotBefore(lines, refs, d, e);
    }
    BitIs(d <= e < |refs| && Lands(lines, refs[e], InNew(refs[d].sec)),
          IsNew(lines, refs[e]) && EqNoCase(refs[d].sec, refs[e].sec));
  }

  lemma BitIs(a: bool, b: bool)
    ensures a == b ==> Bit(a) == Bit(b)
  {
  }

  // The reference that opens a section is the first one of it.
  lemma NotBefore(lines: seq<string>, refs: seq<Ref>, d: nat, e: nat)
    requires e < d < |refs| && Opens(lines, refs, d)
    ensures !(IsNew(lines, refs[e]) && EqNoCase(refs[d].sec, refs[e].sec))
  {
    hide IsNew;
  }

  lemma LandsInNew(lines: seq<string>, sec: string, r: Ref)
    ensures Lands(lines, r, InNew(sec)) <==> IsNew(lines, r) && EqNoCase(sec, r.sec)
  {
    hide EqNoCase, InFile;
  }

  lemma FrontTimes(lines: seq<string>, refs: seq<Ref>, d: nat, acc: seq<string>, e: nat)
    requires d < |refs|
    ensures Times(SectionMarks(lines, refs, d, acc), e) == Times(LandMarks(lines, refs, d, InNew(refs[d].sec)), e)
  {
    hide LandMarks, Separator;
    var front: Marks := if Separator(acc) == [] then [None] else [None, None];
    TimesAppend(front, LandMarks(lines, refs, d, InNew(refs[d].sec)), e);
    assert Times(front, e) == 0;
  }

  lemma {:induction false} NewTimes(lines: seq<string>, refs: seq<Ref>, d: nat, acc: seq<string>, ms: Marks, e: nat)
    requires d <= |refs| && e < |refs| && Live(refs[e])
    ensures Times(NewMarks(lines, refs, d, acc, ms), e)
         == Times(ms, e) + Bit(IsNew(lines, refs[e]) && !OpenedBefore(lines, refs, d, refs[e].sec))
    decreases |refs| - d
  {
    hide *;
    NewMarksUnfold(lines, refs, d, acc, ms);
    if d == |refs| {
      OpenedAtLast(lines, refs, e);
    } else {
      OpenedNext(lines, refs, d, refs[e]);
      if Opens(lines, refs, d) {
        SectionTimes(lines, refs, d, acc, e);
        TimesAppend(ms, SectionMarks(lines, refs, d, acc), e);
        NewTimes(lines, refs, d + 1, acc + Separator(acc) + NewSection(lines, refs, d),
                 ms + SectionMarks(lines, refs, d, acc), e);
      } else {
        NewTimes(lines, refs, d + 1, acc, ms, e);
      }
    }
  }

  lemma NewMarksUnfold(lines: seq<string>, refs: seq<Ref>, d: nat, acc: seq<string>, ms: Marks)
    requires d <= |refs|
    ensures d == |refs| ==> NewMarks(lines, refs, d, acc, ms) == ms
    ensures d < |refs| && Opens(lines, refs, d) ==>
              NewMarks(lines, refs, d, acc, ms)
              == NewMarks(lines, refs, d + 1, acc + Separator(acc) + NewSection(lines, refs, d),
                          ms + SectionMarks(lines, refs, d, acc))
    ensures d < |refs| && !Opens(lines, refs, d) ==>
              NewMarks(lines, refs, d, acc, ms) == NewMarks(lines, refs, d + 1, acc, ms)
  {
    hide Opens, NewSection, Separator, SectionMarks;
  }

  lemma OpenedAtLast(lines: seq<string>, refs: seq<Ref>, e: nat)
    requires e < |refs|
    ensures Bit(IsNew(lines, refs[e]) && !OpenedBefore(lines, refs, |refs|, refs[e].sec)) == 0
  {
    hide IsNew;
    assert EqNoCase(refs[e].sec, refs[e].sec);
  }

  // Reference d opens r's section, or changes nothing about it.
  lemma OpenedNext(lines: seq<string>, refs: seq<Ref>, d: nat, r: Ref)
    requires d < |refs|
    ensures Opens(lines, refs, d) && EqNoCase(refs[d].sec, r.sec) ==>
              !OpenedBefore(lines, refs, d, r.sec) && OpenedBefore(lines, refs, d + 1, r.sec)
    ensures !(Opens(lines, refs, d) && EqNoCase(refs[d].sec, r.sec)) ==>
              (OpenedBefore(lines, refs, d + 1, r.sec) <==> OpenedBefore(lines, refs, d, r.sec))
    ensures Bit(IsNew(lines, r) && !OpenedBefore(lines, refs, d, r.sec))
         == (if Opens(lines, refs, d) then Bit(IsNew(lines, r) && EqNoCase(refs[d].sec, r.sec)) else 0)
            + Bit(IsNew(lines, r) && !OpenedBefore(lines, refs, d + 1, r.sec))
  {
    hide IsNew;
    if OpenedBefore(lines, refs, d, r.sec) {
      var e :| 0 <= e < d && IsNew(lines, refs[e]) && EqNoCase(refs[e].sec, r.sec);
      assert OpenedBefore(lines, refs, d + 1, r.sec);
    }
    if !Opens(lines, refs, d) {
      OpenedStep(lines, refs, d, r.sec);
    }
  }

  /** For every file and every list, a live reference is written exactly once if it
      gets a line, and not at all otherwise. */
  lemma WrittenExactly(lines: seq<string>, refs: seq<Ref>, e: nat)
    requires e < |refs| && Live(refs[e])
    ensures Times(SavedMarks(lines, refs), e) == if Reaches(lines, refs, e) then 1 else 0
  {
    hide *;
    var acc, ms := Body(lines, |lines|, refs), BodyMarks(lines, |lines|, refs);
    MarksAre(lines, refs);
    BodyTimes(lines, |lines|, refs, e);
    NewTimes(lines, refs, 0, acc, ms, e);
    SumUp(lines, refs, e);
  }

  lemma SumUp(lines: seq<string>, refs: seq<Ref>, e: nat)
    requires e < |refs| && Live(refs[e])
    ensures Bit(Written(lines, |lines|, refs[e]) && Reaches(lines, refs, e))
            + Bit(IsNew(lines, refs[e]) && !OpenedBefore(lines, refs, 0, refs[e].sec))
         == if Reaches(lines, refs, e) then 1 else 0
  {
    WrittenOrNew(lines, refs[e]);
    if IsNew(lines, refs[e]) {
      NewMeetsNothing(lines, refs[e]);
    }
    hide Written, IsNew, LastHit, InRemoved, TakenOut, Earlier;
  }

  lemma MarksAre(lines: seq<string>, refs: seq<Ref>)
    ensures SavedMarks(lines, refs) == NewMarks(lines, refs, 0, Body(lines, |lines|, refs), BodyMarks(lines, |lines|, refs))
  {
  }

  // ---- lists with one reference a name

  lemma ApartReaches(lines: seq<string>, refs: seq<Ref>, e: nat)
    requires Apart(refs) && e < |refs| && Live(refs[e])
    ensures Reaches(lines, refs, e)
  {
    var h := LastHit(lines, |lines|, refs[e]);
    if h >= 0 {
      SameNames(lines, h, refs[e]);
      LiveNotGone(refs, refs[e]);
      if InRemoved(lines, h, refs) {
        RemovedOwed(lines, h, refs);
        OwedNoCase(refs, refs[e].sec, SecAt(lines, h));
      }
      forall d | 0 <= d < |refs| && d != e && refs[d].KeyRef?
        ensures !Hits(lines, h, refs[d])
      {
        assert Compatible(refs[e], refs[d]);
      }
      hide ParseLine, SecAt, LastHit, Hits, InRemoved;
      assert !TakenOut(lines, h, refs);
      assert !Earlier(lines, h, refs, e);
    }
  }

  lemma SameNames(lines: seq<string>, h: nat, r: Ref)
    requires h < |lines| && r.KeyRef? && Hits(lines, h, r)
    ensures EqNoCase(r.sec, SecAt(lines, h)) && ParseLine(lines[h]).Bind?
    ensures forall q: Ref | q.KeyRef? && Hits(lines, h, q) :: RefName(q) == RefName(r)
  {
    hide SecAt;
  }

  /** In a list with no name twice, and none set that is also taken out, every live
      reference is written exactly once. */
  lemma WrittenOnce(lines: seq<string>, refs: seq<Ref>, e: nat)
    requires Apart(refs) && e < |refs| && Live(refs[e])
    ensures Times(SavedMarks(lines, refs), e) == 1
  {
    hide *;
    ApartReaches(lines, refs, e);
    WrittenExactly(lines, refs, e);
  }

  // ---- two sets of one key that is too long

  function TwoRefs(k: string, v: string, w: string): seq<Ref> {
    [KeyRef("s", k, v, false), KeyRef("s", k, w, false)]
  }

  function OldLines(k: string): seq<string> {
    ["[s]", k + " = 0"]
  }

  // A key cut to its 63 bytes by the buffer it is stored in
  predicate CutTo(long: string, k: string) {
    |long| >= MAX_KEY && Clip(long, MAX_KEY - 1) == k && GoodKey(k)
  }

  lemma {:induction false} LongMissing(es: seq<Entry>, long: string, i: nat)
    requires i <= |es| && |long| >= MAX_KEY && forall j | 0 <= j < |es| :: |es[j].key| < MAX_KEY
    ensures EntryFrom(es, long, i) == |es|
    decreases |es| - i
  {
    if i < |es| {
      assert |Lower(es[i].key)| != |Lower(long)|;
      LongMissing(es, long, i + 1);
    }
  }

  lemma SetLong(es: seq<Entry>, long: string, k: string, v: string)
    requires CutTo(long, k) && |v| < MAX_VAL && forall j | 0 <= j < |es| :: |es[j].key| < MAX_KEY
    ensures Set([Section("s", false, false, es)], "s", long, v)
         == [Section("s", false, false, [Entry(k, v, true, false, false)] + es)]
  {
    LongMissing(es, long, 0);
    hide EntryFrom, Lower;
    assert FindSection([Section("s", false, false, es)], "s") == 0;
  }

  lemma SetFirst(long: string, v: string)
    ensures Set([], "s", long, v) == Set([Section("s", false, false, [])], "s", long, v)
  {
    hide PutEntry, Lower;
    var one := [Section("s", false, false, [])];
    assert Clip("s", MAX_SECN - 1) == "s";
    assert WithSection([], "s") == one && SectionSlot([], "s") == 0;
    assert WithSection(one, "s") == one && SectionSlot(one, "s") == 0;
  }

  lemma TwoEntries(long: string, k: string, v: string, w: string)
    requires CutTo(long, k) && |v| < MAX_VAL && |w| < MAX_VAL
    ensures Set(Set([], "s", long, v), "s", long, w)
         == [Section("s", false, false, [Entry(k, w, true, false, false), Entry(k, v, true, false, false)])]
  {
    var one := Entry(k, v, true, false, false);
    SetFirst(long, v);
    SetLong([], long, k, v);
    SetLong([one], long, k, w);
    hide Set;
    assert [one] + [] == [one];
    assert [Entry(k, w, true, false, false)] + [one] == [Entry(k, w, true, false, false), one];
  }

  lemma EntryRefsOne(sec: string, e: Entry, es: seq<Entry>)
    requires e.dirty
    ensures EntryRefs(sec, [e] + es) == [KeyRef(sec, e.key, e.value, e.removed)] + EntryRefs(sec, es)
  {
    assert ([e] + es)[1..] == es;
  }

  lemma TwoCollected(k: string, v: string, w: string)
    ensures var es := [Entry(k, w, true, false, false), Entry(k, v, true, false, false)];
            CollectDirty([Section("s", false, false, es)]) == TwoRefs(k, v, w)
  {
    var e1, e2 := Entry(k, v, true, false, false), Entry(k, w, true, false, false);
    var s := Section("s", false, false, [e2, e1]);
    EntryRefsOne("s", e2, [e1]);
    EntryRefsOne("s", e1, []);
    assert [e1] + [] == [e1] && [e2] + [e1] == [e2, e1];
    assert EntryRefs("s", [e2, e1]) == [KeyRef("s", k, w, false), KeyRef("s", k, v, false)];
    hide EntryRefs;
    assert FlatRefs([s]) == SectionRefs(s) + FlatRefs([s][1..]);
    assert FlatRefs([s][1..]) == [];
  }

  lemma OldParsed(k: string)
    requires GoodKey(k)
    ensures ParseLine("[s]") == Header("s") && ParseLine(k + " = 0") == Bind(k, "0")
    ensures KeyEnd(k + " = 0") == |k| && CommentOf(k + " = 0") == ""
  {
    hide *;
    assert "[" + "s" + "]" == "[s]";
    SmallNames();
    NewHeaderParses("s");
    assert k + " = " + "0" == k + " = 0";
    NewLineParses(k, "0");
    NoCommentOf(k + " = 0");
  }

  lemma SmallNames()
    ensures GoodSection("s") && GoodValue("0")
  {
  }

  lemma NoCommentOf(raw: string)
    requires ComOff(raw) == -1
    ensures CommentOf(raw) == ""
  {
    hide ComOff;
  }

  lemma OldHits(k: string, r: Ref)
    requires GoodKey(k) && r.KeyRef? && r.sec == "s" && r.key == k && !r.removed
    ensures LastHit(OldLines(k), 2, r) == 1 && SecAt(OldLines(k), 1) == "s"
  {
    OldParsed(k);
    hide ParseLine, Lower;
    var lines := OldLines(k);
    assert lines[0] == "[s]" && lines[1] == k + " = 0";
    assert SecAt(lines, 1) == "s";
  }

  lemma NothingRemoved(lines: seq<string>, n: nat, refs: seq<Ref>)
    requires n <= |lines| && forall d | 0 <= d < |refs| :: Live(refs[d])
    ensures !InRemoved(lines, n, refs) && (n < |lines| ==> !TakenOut(lines, n, refs))
    ensures forall sec :: !Owed(refs, sec)
  {
    hide ParseLine, Hits;
    if n > 0 {
      NothingRemoved(lines, n - 1, refs);
    }
  }

  lemma OldKept(k: string, v: string, w: string)
    ensures !InRemoved(OldLines(k), 1, TwoRefs(k, v, w)) && !TakenOut(OldLines(k), 1, TwoRefs(k, v, w))
    ensures !Owed(TwoRefs(k, v, w), "s") && !InRemoved(OldLines(k), 0, TwoRefs(k, v, w))
  {
    hide InRemoved, TakenOut, Owed;
    assert |OldLines(k)| == 2;
    NothingRemoved(OldLines(k), 1, TwoRefs(k, v, w));
    NothingRemoved(OldLines(k), 0, TwoRefs(k, v, w));
  }

  lemma OldReaches(k: string, v: string, w: string)
    requires GoodKey(k)
    ensures Reaches(OldLines(k), TwoRefs(k, v, w), 0) && !Reaches(OldLines(k), TwoRefs(k, v, w), 1)
  {
    var lines, refs := OldLines(k), TwoRefs(k, v, w);
    OldHits(k, refs[0]);
    OldHits(k, refs[1]);
    OldKept(k, v, w);
    hide LastHit, InRemoved, TakenOut;
    assert |lines| == 2;
    assert Live(refs[0]);
    assert Earlier(lines, 1, refs, 1);
  }

  lemma OldKeyHead(k: string, v: string, w: string)
    requires GoodKey(k) && |v| < MAX_VAL
    ensures LineHead(OldLines(k), 1, TwoRefs(k, v, w)) == [k + " = " + v]
  {
    var lines, refs := OldLines(k), TwoRefs(k, v, w);
    OldParsed(k);
    OldHits(k, refs[0]);
    OldReaches(k, v, w);
    HeadReaches(lines, 1, refs, 0);
    OldRebuilt(k, refs[0]);
    hide ParseLine, LastHit, CommentOf, KeyEnd, RepFrom, Reaches, Dropped, Rebuild;
    assert lines[1] == k + " = 0";
  }

  lemma OldRebuilt(k: string, r: Ref)
    requires GoodKey(k) && r.KeyRef? && |r.value| < MAX_VAL
    ensures ParseLine(k + " = 0").Bind? && KeyEnd(k + " = 0") <= |k + " = 0"|
    ensures Rebuild(k + " = 0", r) == k + " = " + r.value
  {
    OldParsed(k);
    hide ParseLine, CommentOf, KeyEnd;
    assert (k + " = 0")[..|k|] == k;
    assert k + " = " + r.value + "" == k + " = " + r.value;
  }

  lemma OldHeaderHead(k: string, v: string, w: string)
    requires GoodKey(k)
    ensures LineHead(OldLines(k), 0, TwoRefs(k, v, w)) == ["[s]"]
  {
    OldParsed(k);
    OldKept(k, v, w);
    hide ParseLine, InRemoved, TakenOut, LineHead, Owed;
    assert OldLines(k)[0] == "[s]";
    HeaderKept(OldLines(k), 0, TwoRefs(k, v, w));
  }

  lemma OldAllHit(k: string, v: string, w: string)
    requires GoodKey(k)
    ensures var lines, refs := OldLines(k), TwoRefs(k, v, w);
            forall i | 0 <= i < |refs| && Live(refs[i]) :: LastHit(lines, |lines|, refs[i]) >= 0
  {
    var lines, refs := OldLines(k), TwoRefs(k, v, w);
    hide LastHit, GoodKey, OldLines;
    OldLength(k);
    forall i | 0 <= i < |refs| && Live(refs[i])
      ensures LastHit(lines, |lines|, refs[i]) >= 0
    {
      OldHits(k, refs[i]);
    }
  }

  lemma OldLandings(k: string, v: string, w: string, p: Place)
    requires GoodKey(k)
    ensures Landing(OldLines(k), TwoRefs(k, v, w), p) == []
  {
    hide *;
    OldAllHit(k, v, w);
    NothingLands(OldLines(k), TwoRefs(k, v, w), p);
  }

  lemma OldOpens(k: string, v: string, w: string, d: nat)
    requires GoodKey(k) && d < 2
    ensures !Opens(OldLines(k), TwoRefs(k, v, w), d)
  {
    var r := TwoRefs(k, v, w)[d];
    OldHits(k, r);
    hide LastHit, Anchor, InFile, GoodKey;
    assert |OldLines(k)| == 2;
    if IsNew(OldLines(k), r) {
      NewMeetsNothing(OldLines(k), r);
    }
  }

  lemma OldOut(k: string, v: string, w: string, l: nat)
    requires GoodKey(k) && |v| < MAX_VAL && l < 2
    ensures LineOut(OldLines(k), l, TwoRefs(k, v, w)) == [if l == 0 then "[s]" else k + " = " + v]
  {
    OldLandings(k, v, w, AfterLine(l));
    OldHeaderHead(k, v, w);
    OldKeyHead(k, v, w);
    hide LineHead, Landing, GoodKey, OldLines, TwoRefs;
  }

  lemma OldBody(k: string, v: string, w: string)
    requires GoodKey(k) && |v| < MAX_VAL
    ensures Body(OldLines(k), 2, TwoRefs(k, v, w)) == ["[s]", k + " = " + v]
  {
    hide *;
    var lines, refs := OldLines(k), TwoRefs(k, v, w);
    OldOut(k, v, w, 0);
    OldOut(k, v, w, 1);
    OldTop(k, v, w);
    OldLength(k);
    BodyStep(lines, 0, refs);
    BodyStep(lines, 1, refs);
    assert [] + ["[s]"] + [k + " = " + v] == ["[s]", k + " = " + v];
  }

  lemma OldLength(k: string)
    ensures |OldLines(k)| == 2
  {
  }

  lemma OldTop(k: string, v: string, w: string)
    requires GoodKey(k)
    ensures Body(OldLines(k), 0, TwoRefs(k, v, w)) == []
  {
    OldLandings(k, v, w, AtTop);
    hide Landing, GoodKey, OldLines, TwoRefs;
  }

  lemma OldSaved(k: string, v: string, w: string)
    requires GoodKey(k) && |v| < MAX_VAL
    ensures SurgicalLines(OldLines(k), TwoRefs(k, v, w)) == ["[s]", k + " = " + v]
  {
    var lines, refs := OldLines(k), TwoRefs(k, v, w);
    OldBody(k, v, w);
    OldOpens(k, v, w, 0);
    OldOpens(k, v, w, 1);
    assert |refs| == 2 && |lines| == 2;
    hide Body, Opens, NewSection, OldLines, TwoRefs, GoodKey;
    NewSectionsUnfold(lines, refs, 0, Body(lines, 2, refs));
    NewSectionsUnfold(lines, refs, 1, Body(lines, 2, refs));
    NewSectionsUnfold(lines, refs, 2, Body(lines, 2, refs));
  }

  /** Why a list must be apart. A key too long for its buffer, set to v and then to w,
      is stored twice under its first 63 bytes. Of the two, v reaches the file and w,
      which the store answers for that name, is never written. */
  lemma SecondSetIsLost(long: string, k: string, v: string, w: string)
    requires CutTo(long, k) && |v| < MAX_VAL && |w| < MAX_VAL
    ensures var secs := Set(Set([], "s", long, v), "s", long, w);
            && CollectDirty(secs) == TwoRefs(k, v, w) && Get(secs, "s", k) == Some(w)
            && Times(SavedMarks(OldLines(k), CollectDirty(secs)), 0) == 1
            && Times(SavedMarks(OldLines(k), CollectDirty(secs)), 1) == 0
            && SurgicalLines(OldLines(k), CollectDirty(secs)) == ["[s]", k + " = " + v]
  {
    hide *;
    CutIsGood(long, k);
    TwoEntries(long, k, v, w);
    TwoCollected(k, v, w);
    TwoAnswer(k, v, w);
    OldReaches(k, v, w);
    TwoLive(k, v, w);
    WrittenExactly(OldLines(k), TwoRefs(k, v, w), 0);
    WrittenExactly(OldLines(k), TwoRefs(k, v, w), 1);
    OldSaved(k, v, w);
  }

  lemma CutIsGood(long: string, k: string)
    requires CutTo(long, k)
    ensures GoodKey(k)
  {
    hide GoodKey;
  }

  lemma TwoLive(k: string, v: string, w: string)
    ensures |TwoRefs(k, v, w)| == 2 && Live(TwoRefs(k, v, w)[0]) && Live(TwoRefs(k, v, w)[1])
  {
  }

  lemma TwoAnswer(k: string, v: string, w: string)
    ensures var es := [Entry(k, w, true, false, false), Entry(k, v, true, false, false)];
            Get([Section("s", false, false, es)], "s", k) == Some(w)
  {
    hide Lower;
    var es := [Entry(k, w, true, false, false), Entry(k, v, true, false, false)];
    assert VisibleFrom(es, k, 0) == 0;
  }
}
