/** Where a save puts what is new and what it takes away, in terms of the file's lines:
    a new key goes behind the last visible line of its section, new sections to the end,
    each with its keys in the order of the list, and a line goes exactly when it is of a
    removed section, binds a name taken out, or is the blank above a removed header. */
module ConfigPlaces {
  import opened Basics
  import opened CText
  import opened ConfigLines
  import opened ConfigGrammar
  import opened ConfigReading
  import opened ConfigStore
  import opened ConfigSave
  import opened ConfigSaveMeaning
  import opened ConfigSaveStable
  import opened ConfigOnce

  // ---- sections of the file

  lemma {:induction false} SecAtIs(lines: seq<string>, n: nat, sec: string)
    requires n <= |lines|
    ensures InSection(lines, n, sec) <==> sec == SecAt(lines, n)
  {
    hide *;
    if n == 0 {
      NoSectionYet(lines, sec);
      FirstSection(lines);
    } else {
      SecAtIs(lines, n - 1, sec);
      SecAtStep(lines, n);
      NotBoth(lines[n - 1]);
      HeaderOf(lines[n - 1], sec);
      SectionNext(lines, n - 1, n, sec);
    }
  }

  lemma FirstSection(lines: seq<string>)
    ensures SecAt(lines, 0) == "" == StateAt(lines, 0).sec
  {
    assert lines[..0] == [];
  }

  lemma SecAtStep(lines: seq<string>, n: nat)
    requires 0 < n <= |lines|
    ensures ParseLine(lines[n - 1]).Header? ==> SecAt(lines, n) == ParseLine(lines[n - 1]).sec
    ensures !ParseLine(lines[n - 1]).Header? ==> SecAt(lines, n) == SecAt(lines, n - 1)
  {
    hide ParseLine;
  }

  // Line l is in the section, up to case; a header is in the one that it opens.
  ghost predicate Belongs(lines: seq<string>, l: nat, sec: string)
    requires l < |lines|
  {
    exists s :: InSection(lines, l + 1, s) && EqNoCase(sec, s)
  }

  lemma BelongsIs(lines: seq<string>, l: nat, sec: string)
    requires l < |lines|
    ensures Belongs(lines, l, sec) <==> EqNoCase(sec, SecAt(lines, l + 1))
  {
    hide InSection, SecAt, EqNoCase;
    var s := SecAt(lines, l + 1);
    SecAtIs(lines, l + 1, s);
    if Belongs(lines, l, sec) {
      var s' :| InSection(lines, l + 1, s') && EqNoCase(sec, s');
      SecAtIs(lines, l + 1, s');
    }
  }

  ghost predicate Shows(lines: seq<string>, l: nat, sec: string)
    requires l < |lines|
  {
    NonBlank(lines[l]) && Belongs(lines, l, sec)
  }

  // The last line of the section that is not blank
  ghost predicate LastShown(lines: seq<string>, sec: string, a: int) {
    0 <= a < |lines| && Shows(lines, a, sec) && forall j | a < j < |lines| :: !Shows(lines, j, sec)
  }

  lemma ShowsIs(lines: seq<string>, l: nat, r: Ref)
    requires l < |lines|
    ensures Shows(lines, l, r.sec) <==> Anchors(lines, l, r)
  {
    hide NonBlank, EqNoCase, SecAt;
    BelongsIs(lines, l, r.sec);
  }

  lemma {:induction false} AnchorLast(lines: seq<string>, n: nat, r: Ref)
    requires n <= |lines|
    ensures Anchor(lines, n, r) >= 0 ==> Anchors(lines, Anchor(lines, n, r), r)
    ensures forall j | Anchor(lines, n, r) < j < n :: !Anchors(lines, j, r)
  {
    hide Anchors;
    if n > 0 && !Anchors(lines, n - 1, r) {
      AnchorLast(lines, n - 1, r);
    }
  }

  /** The line behind which a new key goes is the last visible one of its section. */
  lemma AnchorIs(lines: seq<string>, r: Ref, a: int)
    ensures a >= 0 ==> (Anchor(lines, |lines|, r) == a <==> LastShown(lines, r.sec, a))
    ensures Anchor(lines, |lines|, r) < 0 <==> forall j | 0 <= j < |lines| :: !Shows(lines, j, r.sec)
  {
    hide Anchors, Shows, Anchor;
    forall j | 0 <= j < |lines|
      ensures Shows(lines, j, r.sec) <==> Anchors(lines, j, r)
    {
      ShowsIs(lines, j, r);
    }
    AnchorLast(lines, |lines|, r);
  }

  // ---- runs of marks

  // Every line is marked, with places of the list that rise.
  predicate Rising(ms: Marks) {
    && (forall i | 0 <= i < |ms| :: ms[i].Some?)
    && forall i, j | 0 <= i < j < |ms| :: ms[i].value < ms[j].value
  }

  predicate Marked(ms: Marks, e: nat) {
    Some(e) in ms
  }

  lemma {:induction false} LandRising(lines: seq<string>, refs: seq<Ref>, d: nat, p: Place)
    requires d <= |refs|
    ensures var ms := LandMarks(lines, refs, d, p);
            && Rising(ms) && (forall i | 0 <= i < |ms| :: ms[i].value >= d)
            && forall e: nat :: Marked(ms, e) <==> d <= e < |refs| && Lands(lines, refs[e], p)
    decreases |refs| - d
  {
    hide Lands;
    if d < |refs| {
      LandRising(lines, refs, d + 1, p);
      LandMarksUnfold(lines, refs, d, p);
      var rest := LandMarks(lines, refs, d + 1, p);
      MarkedCons(d, Lands(lines, refs[d], p), rest);
    }
  }

  lemma MarkedCons(d: nat, b: bool, rest: Marks)
    requires Rising(rest) && forall i | 0 <= i < |rest| :: rest[i].value > d
    ensures var ms := Mark(d, b) + rest;
            && Rising(ms) && (forall i | 0 <= i < |ms| :: ms[i].value >= d)
            && forall e: nat :: Marked(ms, e) <==> (b && e == d) || Marked(rest, e)
  {
  }

  // The part of the output between two places
  function Part(ms: Marks, from: nat, n: nat): Marks
    requires from + n <= |ms|
  {
    ms[from..from + n]
  }

  lemma PartOf(a: Marks, b: Marks, c: Marks, ms: Marks)
    requires a + b + c <= ms
    ensures |a| + |b| + |c| <= |ms| && Part(ms, |a| + |b|, |c|) == c
  {
    var t := a + b + c;
    assert t == ms[..|t|];
    assert ms[|a| + |b|..|t|] == t[|a| + |b|..];
  }

  lemma {:induction false} MarksGrow(lines: seq<string>, l: nat, n: nat, refs: seq<Ref>)
    requires l <= n <= |lines|
    ensures BodyMarks(lines, l, refs) <= BodyMarks(lines, n, refs)
    decreases n
  {
    hide *;
    if l < n {
      MarksGrow(lines, l, n - 1, refs);
      MarksUnfold(lines, n, refs);
      MarksPrefix(BodyMarks(lines, l, refs), BodyMarks(lines, n - 1, refs),
                  HeadMarks(lines, n - 1, refs) + LandMarks(lines, refs, 0, AfterLine(n - 1)));
    }
  }

  lemma MarksPrefix(a: Marks, b: Marks, c: Marks)
    requires a <= b
    ensures a <= b + c
  {
  }

  lemma {:induction false} NewMarksGrow(lines: seq<string>, refs: seq<Ref>, d: nat, acc: seq<string>, ms: Marks)
    requires d <= |refs|
    ensures ms <= NewMarks(lines, refs, d, acc, ms)
    decreases |refs| - d
  {
    hide *;
    NewMarksUnfold(lines, refs, d, acc, ms);
    if d < |refs| {
      if Opens(lines, refs, d) {
        var more := SectionMarks(lines, refs, d, acc);
        NewMarksGrow(lines, refs, d + 1, acc + Separator(acc) + NewSection(lines, refs, d), ms + more);
      } else {
        NewMarksGrow(lines, refs, d + 1, acc, ms);
      }
    }
  }

  lemma BodyCounts(lines: seq<string>, n: nat, refs: seq<Ref>)
    requires n <= |lines|
    ensures |BodyMarks(lines, n, refs)| == OutPos(lines, n, refs)
  {
    hide MarkedFor, Body, BodyMarks;
    BodyTruthful(lines, n, refs);
  }

  // How many lines of the output stand for line l itself: none or one
  function Stays(lines: seq<string>, l: nat, refs: seq<Ref>): (n: nat)
    requires l < |lines|
    ensures n <= 1
  {
    |LineHead(lines, l, refs)|
  }

  // A live reference that no line of the file binds
  predicate Fresh(lines: seq<string>, r: Ref) {
    Live(r) && forall l | 0 <= l < |lines| :: !Hits(lines, l, r)
  }

  lemma {:induction false} NoHit(lines: seq<string>, n: nat, r: Ref)
    requires n <= |lines|
    ensures LastHit(lines, n, r) < 0 <==> forall l | 0 <= l < n :: !Hits(lines, l, r)
  {
    hide Hits;
    if n > 0 {
      NoHit(lines, n - 1, r);
    }
  }

  lemma FollowsIs(lines: seq<string>, r: Ref, a: nat)
    ensures Lands(lines, r, AfterLine(a)) <==> Fresh(lines, r) && LastShown(lines, r.sec, a)
  {
    hide Hits, LastShown, Anchor, LastHit;
    NoHit(lines, |lines|, r);
    AnchorIs(lines, r, a);
  }

  /** Behind what became of line a stand the key lines of exactly the new keys whose
      section is last visible at line a, in the order of the list; then what became of
      the next line. */
  lemma NewKeysFollow(lines: seq<string>, refs: seq<Ref>, a: nat)
    requires a < |lines|
    ensures OutPos(lines, a, refs) + Stays(lines, a, refs) <= OutPos(lines, a + 1, refs) <= |SavedMarks(lines, refs)|
    ensures var from := OutPos(lines, a, refs) + Stays(lines, a, refs);
            var ms := Part(SavedMarks(lines, refs), from, OutPos(lines, a + 1, refs) - from);
            && Rising(ms)
            && forall e: nat :: Marked(ms, e) <==>
                 e < |refs| && Fresh(lines, refs[e]) && LastShown(lines, refs[e].sec, a)
  {
    hide *;
    var k := a + 1;
    BodyCounts(lines, a, refs);
    BodyCounts(lines, k, refs);
    MarksUnfold(lines, k, refs);
    HeadCounts(lines, a, refs);
    MarksGrow(lines, k, |lines|, refs);
    MarksAre(lines, refs);
    NewMarksGrow(lines, refs, 0, Body(lines, |lines|, refs), BodyMarks(lines, |lines|, refs));
    var front, head := BodyMarks(lines, a, refs), HeadMarks(lines, a, refs);
    var land := LandMarks(lines, refs, 0, AfterLine(a));
    MarksChain(BodyMarks(lines, k, refs), BodyMarks(lines, |lines|, refs), SavedMarks(lines, refs));
    ThreeParts(front, head, land);
    PartOf(front, head, land, SavedMarks(lines, refs));
    LandRising(lines, refs, 0, AfterLine(a));
    forall e: nat
      ensures Marked(land, e) <==> e < |refs| && Fresh(lines, refs[e]) && LastShown(lines, refs[e].sec, a)
    {
      if e < |refs| {
        FollowsIs(lines, refs[e], a);
      }
    }
  }

  lemma TopIs(lines: seq<string>, r: Ref)
    ensures Lands(lines, r, AtTop) <==>
              Fresh(lines, r) && r.sec == "" && forall j | 0 <= j < |lines| :: !Shows(lines, j, "")
  {
    hide Hits, Shows, Anchor, LastHit;
    NoHit(lines, |lines|, r);
    AnchorIs(lines, r, 0);
  }

  /** In front of all lines stand the key lines of exactly the new keys of the section
      without a name, when the file shows nothing of it, in the order of the list. */
  lemma NewKeysLead(lines: seq<string>, refs: seq<Ref>)
    ensures OutPos(lines, 0, refs) <= |SavedMarks(lines, refs)|
    ensures var ms := Part(SavedMarks(lines, refs), 0, OutPos(lines, 0, refs));
            && Rising(ms)
            && forall e: nat :: Marked(ms, e) <==>
                 e < |refs| && Fresh(lines, refs[e]) && refs[e].sec == ""
                 && forall j | 0 <= j < |lines| :: !Shows(lines, j, "")
  {
    hide *;
    BodyCounts(lines, 0, refs);
    MarksUnfold(lines, 0, refs);
    MarksGrow(lines, 0, |lines|, refs);
    MarksAre(lines, refs);
    NewMarksGrow(lines, refs, 0, Body(lines, |lines|, refs), BodyMarks(lines, |lines|, refs));
    var land := LandMarks(lines, refs, 0, AtTop);
    MarksChain(BodyMarks(lines, 0, refs), BodyMarks(lines, |lines|, refs), SavedMarks(lines, refs));
    NoneAhead(land);
    PartOf([], [], land, SavedMarks(lines, refs));
    LandRising(lines, refs, 0, AtTop);
    forall e: nat | e < |refs|
      ensures Lands(lines, refs[e], AtTop) <==>
                Fresh(lines, refs[e]) && refs[e].sec == "" && forall j | 0 <= j < |lines| :: !Shows(lines, j, "")
    {
      TopIs(lines, refs[e]);
    }
  }

  lemma NoneAhead(a: Marks)
    ensures [] + [] + a == a
  {
  }

  lemma HeadCounts(lines: seq<string>, l: nat, refs: seq<Ref>)
    requires l < |lines|
    ensures |HeadMarks(lines, l, refs)| == Stays(lines, l, refs)
  {
    hide LineHead;
  }

  lemma MarksChain(a: Marks, b: Marks, c: Marks)
    requires a <= b <= c
    ensures a <= c
  {
  }

  lemma ThreeParts(a: Marks, b: Marks, c: Marks)
    ensures a + (b + c) == a + b + c
  {
  }

  // What a marked new key's line says
  lemma FreshLine(lines: seq<string>, refs: seq<Ref>, k: nat, e: nat)
    requires k < |SavedMarks(lines, refs)| && SavedMarks(lines, refs)[k] == Some(e)
    requires e < |refs| && Fresh(lines, refs[e])
    ensures k < |SurgicalLines(lines, refs)| && SurgicalLines(lines, refs)[k] == KeyLine(refs[e])
  {
    hide SurgicalLines, SavedMarks, Hits, KeyLine, Rebuild;
    MarksAreTruthful(lines, refs);
    NoHit(lines, |lines|, refs[e]);
    assert MarkedFor(lines, refs, SurgicalLines(lines, refs)[k], SavedMarks(lines, refs)[k]);
  }

  // ---- new sections

  ghost predicate Opened(lines: seq<string>, sec: string) {
    exists l :: 0 <= l < |lines| && OpensAs(lines[l], sec)
  }

  ghost predicate OpensAs(raw: string, sec: string) {
    exists s :: HeaderLine(raw, s) && EqNoCase(sec, s)
  }

  lemma OpensAsIs(raw: string, sec: string)
    ensures OpensAs(raw, sec) <==> ParseLine(raw).Header? && EqNoCase(sec, ParseLine(raw).sec)
  {
    hide HeaderLine, ParseLine, EqNoCase;
    if ParseLine(raw).Header? {
      HeaderOf(raw, ParseLine(raw).sec);
    }
    if OpensAs(raw, sec) {
      var s :| HeaderLine(raw, s) && EqNoCase(sec, s);
      HeaderOf(raw, s);
    }
  }

  lemma {:induction false} InFileIs(lines: seq<string>, n: nat, sec: string)
    requires n <= |lines|
    ensures InFile(lines, n, sec) <==> exists l :: 0 <= l < n && OpensAs(lines[l], sec)
  {
    hide ParseLine, OpensAs, EqNoCase;
    if n > 0 {
      InFileIs(lines, n - 1, sec);
      OpensAsIs(lines[n - 1], sec);
    }
  }

  // A live reference to a section that no header of the file opens
  ghost predicate Homeless(lines: seq<string>, r: Ref) {
    Live(r) && r.sec != "" && !Opened(lines, r.sec)
  }

  lemma HomelessIs(lines: seq<string>, r: Ref)
    ensures Homeless(lines, r) <==> IsNew(lines, r)
  {
    hide OpensAs, InFile;
    InFileIs(lines, |lines|, r.sec);
  }

  // Reference d is the first of the list to need its section.
  ghost predicate FirstOf(lines: seq<string>, refs: seq<Ref>, d: nat)
    requires d < |refs|
  {
    && Homeless(lines, refs[d])
    && forall c | 0 <= c < d :: !(Homeless(lines, refs[c]) && EqNoCase(refs[c].sec, refs[d].sec))
  }

  lemma FirstOfIs(lines: seq<string>, refs: seq<Ref>, d: nat)
    requires d < |refs|
    ensures FirstOf(lines, refs, d) <==> Opens(lines, refs, d)
  {
    hide Homeless, IsNew, EqNoCase;
    forall c | 0 <= c <= d
      ensures Homeless(lines, refs[c]) <==> IsNew(lines, refs[c])
    {
      HomelessIs(lines, refs[c]);
    }
  }

  // At h stands the header of reference d's section, below a blank line that was written
  // only where none was, and behind it the marks of the references to this section, in the order of the list.
  ghost predicate SectionStands(lines: seq<string>, refs: seq<Ref>, out: seq<string>, ms: Marks, d: nat, h: nat, n: nat)
    requires d < |refs| && |out| == |ms|
  {
    && h + 1 + n <= |out| && out[h] == "[" + refs[d].sec + "]" && (h > 0 ==> out[h - 1] == "")
    && (h > 2 && h > OutPos(lines, |lines|, refs) ==> out[h - 2] != "")
    && Rising(Part(ms, h + 1, n))
    && forall e: nat :: Marked(Part(ms, h + 1, n), e) <==>
         e < |refs| && Homeless(lines, refs[e]) && EqNoCase(refs[d].sec, refs[e].sec)
  }

  lemma StandsLonger(lines: seq<string>, refs: seq<Ref>, out: seq<string>, ms: Marks, d: nat, h: nat, n: nat,
                     out': seq<string>, ms': Marks)
    requires d < |refs| && |out| == |ms| && |out'| == |ms'| && out <= out' && ms <= ms'
    requires SectionStands(lines, refs, out, ms, d, h, n)
    ensures SectionStands(lines, refs, out', ms', d, h, n)
  {
    hide Rising, Marked, Homeless;
    assert Part(ms', h + 1, n) == Part(ms, h + 1, n);
  }

  lemma JustOpened(lines: seq<string>, refs: seq<Ref>, d: nat, acc: seq<string>, ms: Marks) returns (h: nat, n: nat)
    requires d < |refs| && |acc| == |ms| && FirstOf(lines, refs, d)
    requires |acc| > OutPos(lines, |lines|, refs) ==> acc[|acc| - 1] != ""
    ensures var out := acc + Separator(acc) + NewSection(lines, refs, d);
            var all := ms + SectionMarks(lines, refs, d, acc);
            |out| == |all| && SectionStands(lines, refs, out, all, d, h, n) && h >= |acc|
  {
    hide KeyLines, LandMarks, Landing, Rising, Marked, Homeless, EqNoCase, Live, InFile, Body;
    var p := InNew(refs[d].sec);
    var land := LandMarks(lines, refs, d, p);
    var keys := KeyLines(Landing(lines, refs[d..], p));
    LandCount(lines, refs, d, p);
    var sep := Separator(acc);
    h := |acc| + |sep|;
    n := |land|;
    var out := acc + sep + NewSection(lines, refs, d);
    var all := ms + SectionMarks(lines, refs, d, acc);
    assert out == acc + sep + ["[" + refs[d].sec + "]"] + keys;
    assert Part(all, h + 1, n) == land;
    LandRising(lines, refs, d, p);
    forall e: nat
      ensures Marked(land, e) <==> e < |refs| && Homeless(lines, refs[e]) && EqNoCase(refs[d].sec, refs[e].sec)
    {
      if e < |refs| {
        HomelessIs(lines, refs[e]);
        InNewIs(lines, refs, d, e);
      }
    }
    BlankAbove(acc);
  }

  lemma InNewIs(lines: seq<string>, refs: seq<Ref>, d: nat, e: nat)
    requires d < |refs| && e < |refs| && FirstOf(lines, refs, d)
    ensures d <= e && Lands(lines, refs[e], InNew(refs[d].sec)) <==>
              IsNew(lines, refs[e]) && EqNoCase(refs[d].sec, refs[e].sec)
  {
    hide InFile, Homeless, Live;
    HomelessIs(lines, refs[e]);
  }

  lemma BlankAbove(acc: seq<string>)
    ensures var out := acc + Separator(acc); out != [] ==> out[|out| - 1] == ""
  {
  }

  // The last line of a new section is its header or a key line.
  lemma SectionEnds(lines: seq<string>, refs: seq<Ref>, d: nat)
    requires d < |refs|
    ensures var s := NewSection(lines, refs, d); s != [] && s[|s| - 1] != ""
  {
    var rs := Landing(lines, refs[d..], InNew(refs[d].sec));
    KeyLinesInked(rs);
    hide KeyLines, Landing;
    assert forall i | 0 <= i < |KeyLines(rs)| :: NewSection(lines, refs, d)[i + 1] == KeyLines(rs)[i];
  }

  lemma {:induction false} KeyLinesInked(rs: seq<Ref>)
    requires forall i | 0 <= i < |rs| :: rs[i].KeyRef?
    ensures forall i | 0 <= i < |rs| :: KeyLines(rs)[i] != ""
  {
    if rs != [] {
      assert forall i | 0 <= i < |rs[1..]| :: rs[1..][i] == rs[i + 1];
      KeyLinesInked(rs[1..]);
    }
  }

  lemma LandCount(lines: seq<string>, refs: seq<Ref>, d: nat, p: Place)
    requires d <= |refs|
    ensures |LandMarks(lines, refs, d, p)| == |KeyLines(Landing(lines, refs[d..], p))|
  {
    hide LandMarks, KeyLines, Landing, MarkedFor;
    LandTruthful(lines, refs, d, p);
  }

  lemma SectionCount(lines: seq<string>, refs: seq<Ref>, d: nat, acc: seq<string>)
    requires d < |refs|
    ensures |SectionMarks(lines, refs, d, acc)| == |Separator(acc) + NewSection(lines, refs, d)|
  {
    hide SectionMarks, NewSection, Separator, MarkedFor;
    SectionTruthful(lines, refs, d, acc);
  }

  lemma NewSectionsUnfold(lines: seq<string>, refs: seq<Ref>, d: nat, acc: seq<string>)
    requires d < |refs|
    ensures NewSections(lines, refs, d, acc)
         == NewSections(lines, refs, d + 1,
                        if Opens(lines, refs, d) then acc + Separator(acc) + NewSection(lines, refs, d) else acc)
  {
    hide Opens, Separator, NewSection;
  }

  lemma {:induction false} OpenedAt(lines: seq<string>, refs: seq<Ref>, c: nat, acc: seq<string>, ms: Marks, d: nat)
    returns (h: nat, n: nat)
    requires c <= d < |refs| && |acc| == |ms| && FirstOf(lines, refs, d)
    requires |acc| > OutPos(lines, |lines|, refs) ==> acc[|acc| - 1] != ""
    ensures |NewSections(lines, refs, c, acc)| == |NewMarks(lines, refs, c, acc, ms)|
    ensures SectionStands(lines, refs, NewSections(lines, refs, c, acc), NewMarks(lines, refs, c, acc, ms), d, h, n)
    ensures h >= |acc|
    decreases d - c
  {
    hide *;
    NewSectionsUnfold(lines, refs, c, acc);
    NewMarksUnfold(lines, refs, c, acc, ms);
    FirstOfIs(lines, refs, c);
    var out, all := acc, ms;
    if Opens(lines, refs, c) {
      SectionCount(lines, refs, c, acc);
      out, all := acc + Separator(acc) + NewSection(lines, refs, c), ms + SectionMarks(lines, refs, c, acc);
      SectionEnds(lines, refs, c);
    }
    if c == d {
      h, n := JustOpened(lines, refs, d, acc, ms);
      AllCount(lines, refs, c + 1, out, all);
      NewSectionsExtend(lines, refs, c + 1, out);
      NewMarksGrow(lines, refs, c + 1, out, all);
      StandsLonger(lines, refs, out, all, d, h, n, NewSections(lines, refs, c + 1, out),
                   NewMarks(lines, refs, c + 1, out, all));
    } else {
      h, n := OpenedAt(lines, refs, c + 1, out, all, d);
    }
  }

  lemma {:induction false} AllCount(lines: seq<string>, refs: seq<Ref>, d: nat, acc: seq<string>, ms: Marks)
    requires d <= |refs| && |acc| == |ms|
    ensures |NewSections(lines, refs, d, acc)| == |NewMarks(lines, refs, d, acc, ms)|
    decreases |refs| - d
  {
    hide *;
    NewMarksUnfold(lines, refs, d, acc, ms);
    if d < |refs| {
      NewSectionsUnfold(lines, refs, d, acc);
      if Opens(lines, refs, d) {
        SectionCount(lines, refs, d, acc);
        AllCount(lines, refs, d + 1, acc + Separator(acc) + NewSection(lines, refs, d),
                 ms + SectionMarks(lines, refs, d, acc));
      } else {
        AllCount(lines, refs, d + 1, acc, ms);
      }
    } else {
      NoMoreSections(lines, refs, acc);
    }
  }

  lemma NoMoreSections(lines: seq<string>, refs: seq<Ref>, acc: seq<string>)
    ensures NewSections(lines, refs, |refs|, acc) == acc
  {
  }

  /** Behind all lines of the file, the header of each section that is new to it stands
      below a blank line, and behind it the key lines of exactly the references to that
      section, in the order of the list. */
  lemma NewSectionIsThere(lines: seq<string>, refs: seq<Ref>, d: nat) returns (h: nat, n: nat)
    requires d < |refs| && FirstOf(lines, refs, d)
    ensures |SurgicalLines(lines, refs)| == |SavedMarks(lines, refs)|
    ensures SectionStands(lines, refs, SurgicalLines(lines, refs), SavedMarks(lines, refs), d, h, n)
    ensures h >= OutPos(lines, |lines|, refs)
  {
    hide *;
    BodyCounts(lines, |lines|, refs);
    OutPosIs(lines, refs);
    MarksAre(lines, refs);
    h, n := OpenedAt(lines, refs, 0, Body(lines, |lines|, refs), BodyMarks(lines, |lines|, refs), d);
  }

  lemma OutPosIs(lines: seq<string>, refs: seq<Ref>)
    ensures OutPos(lines, |lines|, refs) == |Body(lines, |lines|, refs)|
    ensures SurgicalLines(lines, refs) == NewSections(lines, refs, 0, Body(lines, |lines|, refs))
  {
    hide Body, NewSections;
  }

  // ---- lines that go

  ghost predicate OwedAt(lines: seq<string>, k: nat, refs: seq<Ref>, h: nat, s: string)
    requires k <= |lines|
  {
    Heads(lines, k, h, s) && Owed(refs, s)
  }

  // The last header among the first k lines opens a removed section.
  ghost predicate RemovedAt(lines: seq<string>, k: nat, refs: seq<Ref>)
    requires k <= |lines|
  {
    exists h: nat, s :: OwedAt(lines, k, refs, h, s)
  }

  lemma HeadsStep(lines: seq<string>, m: nat, k: nat, refs: seq<Ref>, h: nat, s: string)
    requires m < |lines| && k == m + 1
    ensures IsHeader(lines[m]) ==>
              (OwedAt(lines, k, refs, h, s) <==> h == m && HeaderLine(lines[m], s) && Owed(refs, s))
    ensures !IsHeader(lines[m]) ==> (OwedAt(lines, k, refs, h, s) <==> OwedAt(lines, m, refs, h, s))
  {
    hide HeaderLine, IsHeader, Owed;
    if OwedAt(lines, k, refs, h, s) {
      HeaderIsHeader(lines[h], s);
    }
  }

  lemma RemovedUnder(lines: seq<string>, m: nat, k: nat, refs: seq<Ref>, sec: string)
    requires m < |lines| && k == m + 1 && HeaderLine(lines[m], sec)
    ensures RemovedAt(lines, k, refs) <==> Owed(refs, sec)
  {
    hide HeaderLine, IsHeader, OwedAt, Owed;
    HeaderIsHeader(lines[m], sec);
    HeaderOf(lines[m], sec);
    HeadsStep(lines, m, k, refs, m, sec);
    if RemovedAt(lines, k, refs) {
      var h: nat, s :| OwedAt(lines, k, refs, h, s);
      HeadsStep(lines, m, k, refs, h, s);
      HeaderOf(lines[m], s);
    }
  }

  lemma RemovedOn(lines: seq<string>, m: nat, k: nat, refs: seq<Ref>)
    requires m < |lines| && k == m + 1 && !IsHeader(lines[m])
    ensures RemovedAt(lines, k, refs) <==> RemovedAt(lines, m, refs)
  {
    hide HeaderLine, IsHeader, OwedAt, Owed;
    forall h: nat, s
      ensures OwedAt(lines, k, refs, h, s) <==> OwedAt(lines, m, refs, h, s)
    {
      HeadsStep(lines, m, k, refs, h, s);
    }
  }

  lemma InRemovedStep(lines: seq<string>, m: nat, refs: seq<Ref>)
    requires m < |lines|
    ensures var p := ParseLine(lines[m]);
            InRemoved(lines, m + 1, refs) <==> if p.Header? then Owed(refs, p.sec) else InRemoved(lines, m, refs)
  {
    hide ParseLine, Owed;
  }

  lemma {:induction false} RemovedIs(lines: seq<string>, k: nat, refs: seq<Ref>)
    requires k <= |lines|
    ensures RemovedAt(lines, k, refs) <==> InRemoved(lines, k, refs)
  {
    hide *;
    if k == 0 {
      NothingRemovedYet(lines, refs);
    } else {
      var m := k - 1;
      RemovedIs(lines, m, refs);
      InRemovedStep(lines, m, refs);
      NotBoth(lines[m]);
      if ParseLine(lines[m]).Header? {
        HeaderOf(lines[m], ParseLine(lines[m]).sec);
        RemovedUnder(lines, m, k, refs, ParseLine(lines[m]).sec);
      } else {
        RemovedOn(lines, m, k, refs);
      }
    }
  }

  lemma NothingRemovedYet(lines: seq<string>, refs: seq<Ref>)
    ensures !RemovedAt(lines, 0, refs) && !InRemoved(lines, 0, refs)
  {
    hide HeaderLine, Owed;
  }

  /** A line goes if and only if it shows in a removed section, or binds a name taken
      out, or is blank above the header of a removed section. */
  lemma GoesIs(lines: seq<string>, l: nat, refs: seq<Ref>)
    requires l < |lines|
    ensures Stays(lines, l, refs) == 0 <==>
              || (NonBlank(lines[l]) && RemovedAt(lines, l + 1, refs))
              || TakenOut(lines, l, refs)
              || (!NonBlank(lines[l]) && l + 1 < |lines| && DropsHeader(lines, l + 1, refs))
  {
    hide TakenOut, NonBlank, Owed, OwedAt, Rebuild;
    RemovedIs(lines, l + 1, refs);
    HeaderInked(lines[l]);
    InRemovedStep(lines, l, refs);
    if !Dropped(lines, l, refs) && Rebuilds(lines, l, refs) {
      RebuildsKeyLine(lines, l, refs);
    }
  }

  lemma HeaderInked(raw: string)
    ensures ParseLine(raw).Header? ==> NonBlank(raw)
  {
    hide ParseBody, Trim;
    if ParseLine(raw).Header? {
      HeaderParts(raw);
      SomeInk(raw);
      InkAtLead(raw);
      assert !IsSpace(raw[Lead(raw)]);
    }
  }

  // ---- lines that are rewritten

  lemma RebuildIs(raw: string, r: Ref)
    requires r.KeyRef? && ParseLine(raw).Bind? && KeyEnd(raw) <= |raw|
    ensures var head := raw[..KeyEnd(raw)] + " = " + r.value;
            var com := CommentOf(raw);
            && (|head + com| < 512 ==> Rebuild(raw, r) == head + com)
            && (|head + com| >= 512 && |head| < 512 ==> Rebuild(raw, r) == head)
            && (|head| >= 512 ==> Rebuild(raw, r) == r.key + " = " + r.value)
  {
    hide ParseLine, KeyEnd, CommentOf;
    assert r.key + " = " + r.value + "" == r.key + " = " + r.value;
    var head := raw[..KeyEnd(raw)] + " = " + r.value;
    assert head + "" == head;
  }

  /** A rewritten line keeps what stood in front of its key, the spelling of the key and
      the comment behind its value with the blanks in front of it; the comment goes when
      the line would grow to 512 bytes, and then the rest when that would. */
  lemma RewriteKeeps(raw: string, key: string, v: string, w1: string, w2: string, w: string, tail: string, r: Ref)
    requires |raw| < 512 && KeyPieces(raw, key, v, w1, w2, w + v + tail) && ValuePieces(w + v + tail, v, w, tail)
    requires r.KeyRef?
    ensures ParseLine(raw).Bind? && KeyEnd(raw) <= |raw|
    ensures var head := w1 + key + " = " + r.value;
            && (|head| >= 512 ==> Rebuild(raw, r) == r.key + " = " + r.value)
            && ((v == "" || AllSpace(tail)) && |head| < 512 ==> Rebuild(raw, r) == head)
            && forall k: nat, n: nat | k <= |tail| && v != "" && CommentStart(tail, k, n) && |head| < 512 ::
                 Rebuild(raw, r) == if |head + tail[k..]| < 512 then head + tail[k..] else head
  {
    hide *;
    var rest := w + v + tail;
    CutsAre(raw, key, v, w1, w2, w, tail);
    KeyLineShape(raw);
    PiecesOf(raw, key, v, w1, w2, rest);
    CutHead(raw, w1, key, w2 + "=" + rest);
    HeadJoin(w1, key, w2, rest);
    RebuildIs(raw, r);
    var head := w1 + key + " = " + r.value;
    assert head + "" == head;
  }

  lemma CutHead(raw: string, w1: string, key: string, rest: string)
    requires raw == w1 + key + rest
    ensures raw[..|w1| + |key|] == w1 + key
  {
  }

  lemma HeadJoin(w1: string, key: string, w2: string, rest: string)
    ensures w1 + key + w2 + "=" + rest == w1 + key + (w2 + "=" + rest)
  {
  }
}
