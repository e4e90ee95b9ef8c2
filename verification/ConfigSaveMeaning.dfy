/** Loading what the save wrote: the old meaning with the dirty list applied.

    `In(l)` is the load of the first l lines of the file, `Out(l)` the load of what
    the save has written by then, and `Mid(l)` that load with what becomes of line l
    itself. Three inductions over the lines compare them: for a name the list is not
    about, the two loads agree (`UntouchedBody`); for a name it takes out, the output
    never binds it (`GoneBody`); for a name it sets, the output binds it by the time
    its line, or the place for its new line, has gone by (`SetBody`). A second
    induction, over the list, carries each of the three through the new sections.
    `SaveMeaning` puts them together. */
module ConfigSaveMeaning {
  import opened CText
  import opened ConfigLines
  import opened ConfigValues
  import opened ConfigMeaning
  import opened ConfigStore
  import opened ConfigSave

  // ---- one rebuilt or new line

  /** Line `raw`, with comment c carried over, binds r's key to what r's value
      reads back as in front of that comment. */
  predicate Reads(raw: string, r: Ref, c: string) {
    && Live(r)
    && ParseLine(raw).Bind?
    && Lower(Clip(ParseLine(raw).key, MAX_KEY - 1)) == Lower(r.key)
    && ParseLine(raw).val == ValueOf(r.value + c)
    && OneLine(raw)
  }

  lemma KeyLineReads(r: Ref)
    requires Live(r) && WellNamed(r)
    ensures Reads(KeyLine(r), r, "") && ParseLine(KeyLine(r)).key == r.key
  {
    hide ParseLine, KeyEnd, ValueOf, Lower;
    RebuiltReads("", r.key, r.value, "");
    assert "" + r.key + " = " + r.value + "" == KeyLine(r);
    OneLineConcat(r.key, r.value, "");
    assert r.key + " = " + r.value + "" == KeyLine(r);
  }

  lemma RebuildReads(raw: string, r: Ref)
    requires Live(r) && WellNamed(r) && OneLine(raw)
    requires ParseLine(raw).Bind? && KeyEnd(raw) <= |raw|
    requires Lower(Clip(ParseLine(raw).key, MAX_KEY - 1)) == Lower(r.key)
    ensures Reads(Rebuild(raw, r), r, KeptComment(raw, r))
    ensures ParseLine(Rebuild(raw, r)).key == ParseLine(raw).key || ParseLine(Rebuild(raw, r)).key == r.key
  {
    if KeyEnd(raw) + 3 + |r.value| >= MAX_LINE {
      assert Rebuild(raw, r) == r.key + " = " + r.value + "";
      assert r.key + " = " + r.value + "" == KeyLine(r);
      KeyLineReads(r);
    } else {
      RebuildInPlaceReads(raw, r);
    }
  }

  lemma RebuildInPlaceReads(raw: string, r: Ref)
    requires Live(r) && WellNamed(r) && OneLine(raw)
    requires ParseLine(raw).Bind? && KeyEnd(raw) <= |raw|
    requires Lower(Clip(ParseLine(raw).key, MAX_KEY - 1)) == Lower(r.key)
    requires KeyEnd(raw) + 3 + |r.value| < MAX_LINE
    ensures Reads(Rebuild(raw, r), r, KeptComment(raw, r))
    ensures ParseLine(Rebuild(raw, r)).key == ParseLine(raw).key
  {
    KeyLineShape(raw);
    var com := KeptComment(raw, r);
    CommentOneLine(raw);
    assert forall x | x in raw[..KeyEnd(raw)] :: x in raw;
    RebuiltLineReads(raw[..Lead(raw)], ParseLine(raw).key, com, r);
  }

  lemma CommentOneLine(raw: string)
    requires OneLine(raw)
    ensures OneLine(CommentOf(raw))
  {
    var c := CommentOf(raw);
    assert forall x | x in c :: x in raw;
  }

  lemma RebuiltLineReads(ws: string, key: string, com: string, r: Ref)
    requires Live(r) && WellNamed(r) && OneLine(ws + key) && OneLine(com)
    requires AllSpace(ws) && GoodKeyText(key) && Lower(Clip(key, MAX_KEY - 1)) == Lower(r.key)
    requires |ws + key + " = " + r.value + com| < MAX_LINE
    ensures Reads(ws + key + " = " + r.value + com, r, com)
    ensures ParseLine(ws + key + " = " + r.value + com).key == key
  {
    hide ParseLine, KeyEnd, ValueOf, Lower;
    RebuiltReads(ws, key, r.value, com);
    OneLineConcat(ws + key, r.value, com);
  }

  lemma OneLineConcat(a: string, v: string, com: string)
    requires OneLine(a) && OneLine(v) && OneLine(com)
    ensures OneLine(a + " = " + v + com)
  {
  }

  // ---- loading lines that are all keys of one section

  predicate SameAt(a: map<Name, string>, b: map<Name, string>, n: Name) {
    (n in a <==> n in b) && (n in a ==> a[n] == b[n])
  }

  predicate BoundAs(b: map<Name, string>, r: Ref, raw: string) {
    RefName(r) in b && b[RefName(r)] == raw
  }

  predicate KeysOf(rs: seq<Ref>, sec: string) {
    forall i | 0 <= i < |rs| :: Live(rs[i]) && WellNamed(rs[i]) && EqNoCase(rs[i].sec, sec)
  }

  lemma StepKeyLine(st: LoadState, r: Ref)
    requires Live(r) && WellNamed(r) && EqNoCase(r.sec, st.sec)
    ensures Step(st, KeyLine(r)) == st.(binds := st.binds[RefName(r) := KeyLine(r)])
  {
    KeyLineReads(r);
    hide ParseLine, KeyLine, ValueOf;
  }

  lemma KeyLinesHead(rs: seq<Ref>)
    requires rs != []
    ensures KeyLines(rs)[0] == KeyLine(rs[0]) && KeyLines(rs)[1..] == KeyLines(rs[1..])
  {
  }

  // Names that no listed reference carries keep their line.
  lemma {:induction false} LoadKeyLinesOther(st: LoadState, rs: seq<Ref>, n: Name)
    requires KeysOf(rs, st.sec)
    requires forall i | 0 <= i < |rs| :: RefName(rs[i]) != n
    ensures Loaded(st, KeyLines(rs)).sec == st.sec
    ensures SameAt(st.binds, Loaded(st, KeyLines(rs)).binds, n)
    decreases |rs|
  {
    if rs != [] {
      KeyLinesHead(rs);
      StepKeyLine(st, rs[0]);
      LoadKeyLinesOther(Step(st, KeyLine(rs[0])), rs[1..], n);
    }
  }

  lemma {:induction false} LoadKeyLinesSec(st: LoadState, rs: seq<Ref>)
    requires KeysOf(rs, st.sec)
    ensures Loaded(st, KeyLines(rs)).sec == st.sec
    decreases |rs|
  {
    if rs != [] {
      KeyLinesHead(rs);
      StepKeyLine(st, rs[0]);
      LoadKeyLinesSec(Step(st, KeyLine(rs[0])), rs[1..]);
    }
  }

  // A listed reference ends up bound, to its own line.
  lemma {:induction false} LoadKeyLinesSet(st: LoadState, rs: seq<Ref>, r: Ref)
    requires KeysOf(rs, st.sec) && r in rs
    requires forall i | 0 <= i < |rs| && RefName(rs[i]) == RefName(r) :: rs[i] == r
    ensures BoundAs(Loaded(st, KeyLines(rs)).binds, r, KeyLine(r))
    decreases |rs|
  {
    KeyLinesHead(rs);
    StepKeyLine(st, rs[0]);
    var st1 := Step(st, KeyLine(rs[0]));
    if r in rs[1..] {
      LoadKeyLinesSet(st1, rs[1..], r);
    } else {
      assert rs[0] == r;
      forall i | 0 <= i < |rs[1..]|
        ensures RefName(rs[1..][i]) != RefName(r)
      {
        assert rs[1..][i] == rs[i + 1];
        assert rs[1..][i] in rs[1..];
      }
      LoadKeyLinesOther(st1, rs[1..], RefName(r));
    }
  }

  // ---- facts about the binding of references to lines

  lemma BoundNonBlank(raw: string)
    requires !ParseLine(raw).Inert?
    ensures NonBlank(raw)
  {
    assert Trim(raw) != "";
    assert Lead(raw) < |raw|;
  }

  // A line in force under a removed header is in a section to be removed.
  lemma {:induction false} RemovedOwed(lines: seq<string>, l: nat, refs: seq<Ref>)
    requires l <= |lines| && InRemoved(lines, l, refs)
    ensures Owed(refs, SecAt(lines, l))
  {
    hide *;
    RemovedUnfold(lines, l, refs);
    if !ParseLine(lines[l - 1]).Header? {
      RemovedOwed(lines, l - 1, refs);
    }
  }

  lemma {:induction false} RemovedSections(lines: seq<string>, l: nat, refs: seq<Ref>)
    requires l <= |lines| && Orderly(refs)
    ensures InRemoved(lines, l, refs) <==> Owed(refs, SecAt(lines, l))
  {
    hide *;
    RemovedUnfold(lines, l, refs);
    if l == 0 {
      NoneOwed(refs);
    } else {
      RemovedSections(lines, l - 1, refs);
    }
  }

  lemma RemovedUnfold(lines: seq<string>, l: nat, refs: seq<Ref>)
    requires l <= |lines|
    ensures l == 0 ==> !InRemoved(lines, l, refs) && SecAt(lines, l) == ""
    ensures l > 0 && ParseLine(lines[l - 1]).Header? ==>
              SecAt(lines, l) == ParseLine(lines[l - 1]).sec && (InRemoved(lines, l, refs) <==> Owed(refs, SecAt(lines, l)))
    ensures l > 0 && !ParseLine(lines[l - 1]).Header? ==>
              SecAt(lines, l) == SecAt(lines, l - 1) && (InRemoved(lines, l, refs) <==> InRemoved(lines, l - 1, refs))
  {
    hide ParseLine, Owed;
  }

  lemma NoneOwed(refs: seq<Ref>)
    requires Orderly(refs)
    ensures !Owed(refs, "")
  {
    forall d | 0 <= d < |refs| && refs[d].SectionRef?
      ensures !EqNoCase(refs[d].sec, "")
    {
      assert WellNamed(refs[d]);
      assert |Lower(refs[d].sec)| > 0;
    }
  }

  lemma {:induction false} LastHitCovers(lines: seq<string>, n: nat, r: Ref, l: nat)
    requires l < n <= |lines| && Hits(lines, l, r)
    ensures LastHit(lines, n, r) >= l
  {
    hide Hits;
    if l < n - 1 && !Hits(lines, n - 1, r) {
      LastHitCovers(lines, n - 1, r, l);
    }
  }

  lemma {:induction false} RepFound(lines: seq<string>, l: nat, refs: seq<Ref>, d: nat, e: nat)
    requires d <= e < |refs| && LastHit(lines, |lines|, refs[e]) == l
    ensures RepFrom(lines, l, refs, d) <= e
    decreases e - d
  {
    if d < e && LastHit(lines, |lines|, refs[d]) != l {
      RepFound(lines, l, refs, d + 1, e);
    }
  }

  lemma {:induction false} LandingHas(lines: seq<string>, refs: seq<Ref>, p: Place, r: Ref)
    requires r in refs && Lands(lines, r, p)
    ensures r in Landing(lines, refs, p)
  {
    if refs[0] == r {
      assert Landing(lines, refs, p)[0] == r;
    } else {
      LandingHas(lines, refs[1..], p, r);
    }
  }

  // Live references with one name are one reference.
  lemma LiveUnique(refs: seq<Ref>, a: Ref, b: Ref)
    requires Apart(refs) && a in refs && b in refs && Live(a)
    requires b.KeyRef? && RefName(a) == RefName(b)
    ensures a == b
  {
    var i :| 0 <= i < |refs| && refs[i] == a;
    var j :| 0 <= j < |refs| && refs[j] == b;
    assert i != j ==> Compatible(refs[i], refs[j]);
  }

  lemma LiveNotGone(refs: seq<Ref>, a: Ref)
    requires Apart(refs) && a in refs && Live(a)
    ensures !Gone(refs, RefName(a)) && !Owed(refs, a.sec)
  {
    var i :| 0 <= i < |refs| && refs[i] == a;
    forall j | 0 <= j < |refs|
      ensures refs[j].SectionRef? ==> !EqNoCase(a.sec, refs[j].sec)
      ensures refs[j].KeyRef? && refs[j].removed ==> RefName(refs[j]) != RefName(a)
    {
      if i != j {
        assert Compatible(refs[i], refs[j]);
      }
    }
  }

  lemma OwedNoCase(refs: seq<Ref>, a: string, b: string)
    requires EqNoCase(a, b)
    ensures Owed(refs, a) <==> Owed(refs, b)
  {
  }

  // A key line under a removed header never reaches the output.
  lemma RemovedKeyLineDropped(lines: seq<string>, l: nat, refs: seq<Ref>)
    requires l < |lines| && InRemoved(lines, l, refs) && ParseLine(lines[l]).Bind?
    ensures Dropped(lines, l, refs)
  {
    BoundNonBlank(lines[l]);
    assert InRemoved(lines, l + 1, refs);
  }

  // The reference a line is rewritten for is live and is bound last there.
  lemma RepIsLive(lines: seq<string>, l: nat, refs: seq<Ref>)
    requires l < |lines| && Rebuilds(lines, l, refs)
    ensures var r := refs[Rep(lines, l, refs)];
            Live(r) && r in refs && Hits(lines, l, r) && LastHit(lines, |lines|, r) == l
  {
    RebuildsKeyLine(lines, l, refs);
  }

  // A kept header or key line hit by nothing is kept as it is.
  lemma HeaderKept(lines: seq<string>, l: nat, refs: seq<Ref>)
    requires l < |lines| && ParseLine(lines[l]).Header? && !Owed(refs, ParseLine(lines[l]).sec)
    ensures LineHead(lines, l, refs) == [lines[l]]
  {
    BoundNonBlank(lines[l]);
    assert forall d | 0 <= d < |refs| :: refs[d].KeyRef? ==> !Hits(lines, l, refs[d]);
    assert !Dropped(lines, l, refs);
    if Rebuilds(lines, l, refs) {
      RebuildsKeyLine(lines, l, refs);
      assert false;
    }
  }

  // ---- the two loads, side by side

  // The load of the first l input lines
  function In(lines: seq<string>, l: nat): LoadState
    requires l <= |lines|
  {
    Loaded(EMPTY, lines[..l])
  }

  // The load of what has been written before line l
  function Out(lines: seq<string>, l: nat, refs: seq<Ref>): LoadState
    requires l <= |lines|
  {
    Loaded(EMPTY, Body(lines, l, refs))
  }

  // ... and then of what becomes of line l itself
  function Mid(lines: seq<string>, l: nat, refs: seq<Ref>): LoadState
    requires l < |lines|
  {
    Loaded(Out(lines, l, refs), LineHead(lines, l, refs))
  }

  lemma LoadedNone(lines: seq<string>)
    ensures Loaded(EMPTY, lines[..0]) == EMPTY
  {
  }

  lemma {:induction false} InSec(lines: seq<string>, l: nat)
    requires l <= |lines|
    ensures In(lines, l).sec == SecAt(lines, l)
  {
    hide ParseLine, Loaded;
    if l > 0 {
      InSec(lines, l - 1);
      LoadedPrefix(EMPTY, lines, l - 1);
    } else {
      LoadedNone(lines);
    }
  }

  lemma OutStep(lines: seq<string>, l: nat, refs: seq<Ref>)
    requires l < |lines|
    ensures Out(lines, l + 1, refs)
         == Loaded(Mid(lines, l, refs), KeyLines(Landing(lines, refs, AfterLine(l))))
  {
    LoadedConcat(EMPTY, Body(lines, l, refs), LineOut(lines, l, refs));
    LoadedConcat(Out(lines, l, refs), LineHead(lines, l, refs), KeyLines(Landing(lines, refs, AfterLine(l))));
  }

  // What the head of a line does to the load
  lemma MidCases(lines: seq<string>, l: nat, refs: seq<Ref>)
    requires l < |lines|
    ensures LineHead(lines, l, refs) == [] ==> Mid(lines, l, refs) == Out(lines, l, refs)
    ensures LineHead(lines, l, refs) != [] ==>
              Mid(lines, l, refs) == Step(Out(lines, l, refs), LineHead(lines, l, refs)[0])
  {
    if LineHead(lines, l, refs) != [] {
      LoadedOne(Out(lines, l, refs), LineHead(lines, l, refs)[0]);
      assert LineHead(lines, l, refs) == [LineHead(lines, l, refs)[0]];
    }
  }

  // ---- the section in force on both sides

  lemma StepSec(st: LoadState, raw: string)
    ensures Step(st, raw).sec == if ParseLine(raw).Header? then ParseLine(raw).sec else st.sec
  {
  }

  // What is written for a key line binds a key.
  lemma RebuildBinds(lines: seq<string>, l: nat, refs: seq<Ref>)
    requires l < |lines| && Orderly(refs) && AllOneLine(lines) && Rebuilds(lines, l, refs)
    ensures LineHead(lines, l, refs) == [Rebuild(lines[l], refs[Rep(lines, l, refs)])]
    ensures Reads(LineHead(lines, l, refs)[0], refs[Rep(lines, l, refs)], KeptComment(lines[l], refs[Rep(lines, l, refs)]))
  {
    RepIsLive(lines, l, refs);
    RebuildsKeyLine(lines, l, refs);
    assert WellNamed(refs[Rep(lines, l, refs)]);
    RebuildReads(lines[l], refs[Rep(lines, l, refs)]);
  }

  lemma MidSec(lines: seq<string>, l: nat, refs: seq<Ref>)
    requires l < |lines| && Orderly(refs) && AllOneLine(lines)
    requires !InRemoved(lines, l, refs) ==> EqNoCase(Out(lines, l, refs).sec, SecAt(lines, l))
    ensures !InRemoved(lines, l + 1, refs) ==> EqNoCase(Mid(lines, l, refs).sec, SecAt(lines, l + 1))
  {
    MidCases(lines, l, refs);
    if ParseLine(lines[l]).Header? {
      if !Owed(refs, ParseLine(lines[l]).sec) {
        HeaderKept(lines, l, refs);
      }
    } else if LineHead(lines, l, refs) != [] {
      StepSec(Out(lines, l, refs), LineHead(lines, l, refs)[0]);
      if Rebuilds(lines, l, refs) {
        RebuildBinds(lines, l, refs);
      }
    }
  }

  // The keys added after line l all belong to the section in force there.
  lemma LandingFits(lines: seq<string>, l: nat, refs: seq<Ref>)
    requires l < |lines| && Orderly(refs)
    requires !InRemoved(lines, l + 1, refs) ==> EqNoCase(Mid(lines, l, refs).sec, SecAt(lines, l + 1))
    ensures KeysOf(Landing(lines, refs, AfterLine(l)), Mid(lines, l, refs).sec)
  {
    hide Lands, Orderly, WellNamed, EqNoCase, Mid;
    var rs := Landing(lines, refs, AfterLine(l));
    forall i | 0 <= i < |rs|
      ensures Live(rs[i]) && WellNamed(rs[i]) && EqNoCase(rs[i].sec, Mid(lines, l, refs).sec)
    {
      assert rs[i] in refs && Lands(lines, rs[i], AfterLine(l));
      LandsFits(lines, l, refs, rs[i], Mid(lines, l, refs).sec);
    }
  }

  lemma LandsFits(lines: seq<string>, l: nat, refs: seq<Ref>, r: Ref, sec: string)
    requires l < |lines| && Orderly(refs) && r in refs && Lands(lines, r, AfterLine(l))
    requires !InRemoved(lines, l + 1, refs) ==> EqNoCase(sec, SecAt(lines, l + 1))
    ensures Live(r) && WellNamed(r) && EqNoCase(r.sec, sec)
  {
    LandsAnchors(lines, l, r);
    hide Lands, SecAt, InRemoved;
    WellNamedOf(refs, r);
    RemovedSections(lines, l + 1, refs);
    LiveNotGone(refs, r);
    OwedNoCase(refs, r.sec, SecAt(lines, l + 1));
  }

  lemma LandsAnchors(lines: seq<string>, l: nat, r: Ref)
    requires l < |lines| && Lands(lines, r, AfterLine(l))
    ensures Live(r) && Anchor(lines, |lines|, r) == l && EqNoCase(r.sec, SecAt(lines, l + 1))
  {
    AnchorAnchors(lines, |lines|, r);
    hide Anchor, LastHit, SecAt, NonBlank;
  }

  lemma TopFits(lines: seq<string>, refs: seq<Ref>)
    requires Orderly(refs)
    ensures KeysOf(Landing(lines, refs, AtTop), "")
  {
    var rs := Landing(lines, refs, AtTop);
    forall i | 0 <= i < |rs|
      ensures Live(rs[i]) && WellNamed(rs[i]) && rs[i].sec == ""
    {
      assert rs[i] in refs && Lands(lines, rs[i], AtTop);
      var d :| 0 <= d < |refs| && refs[d] == rs[i];
    }
  }

  lemma {:induction false} SecSim(lines: seq<string>, l: nat, refs: seq<Ref>)
    requires l <= |lines| && Orderly(refs) && AllOneLine(lines)
    ensures !InRemoved(lines, l, refs) ==> EqNoCase(Out(lines, l, refs).sec, SecAt(lines, l))
  {
    if l == 0 {
      TopFits(lines, refs);
      LoadKeyLinesSec(EMPTY, Landing(lines, refs, AtTop));
    } else {
      SecSim(lines, l - 1, refs);
      MidSec(lines, l - 1, refs);
      LandingFits(lines, l - 1, refs);
      OutStep(lines, l - 1, refs);
      LoadKeyLinesSec(Mid(lines, l - 1, refs), Landing(lines, refs, AfterLine(l - 1)));
    }
  }

  // Everything the two inductions below need about one line
  lemma LineFacts(lines: seq<string>, l: nat, refs: seq<Ref>)
    requires l < |lines| && Orderly(refs) && AllOneLine(lines)
    ensures !InRemoved(lines, l, refs) ==> EqNoCase(Out(lines, l, refs).sec, SecAt(lines, l))
    ensures KeysOf(Landing(lines, refs, AfterLine(l)), Mid(lines, l, refs).sec)
    ensures Out(lines, l + 1, refs)
         == Loaded(Mid(lines, l, refs), KeyLines(Landing(lines, refs, AfterLine(l))))
  {
    SecSim(lines, l, refs);
    MidSec(lines, l, refs);
    LandingFits(lines, l, refs);
    OutStep(lines, l, refs);
  }

  // ---- the effect of one line on one name

  // Line l binds the name n
  predicate BindsName(lines: seq<string>, l: nat, n: Name)
    requires l < |lines|
  {
    ParseLine(lines[l]).Bind? && NameOf(SecAt(lines, l), ParseLine(lines[l]).key) == n
  }

  lemma HitsBinds(lines: seq<string>, l: nat, r: Ref)
    requires l < |lines| && r.KeyRef?
    ensures Hits(lines, l, r) <==> BindsName(lines, l, RefName(r))
  {
  }

  lemma InStepOther(lines: seq<string>, l: nat, n: Name)
    requires l < |lines|
    ensures !BindsName(lines, l, n) ==> SameAt(In(lines, l).binds, In(lines, l + 1).binds, n)
    ensures BindsName(lines, l, n) ==> n in In(lines, l + 1).binds && In(lines, l + 1).binds[n] == lines[l]
  {
    LoadedPrefix(EMPTY, lines, l);
    InSec(lines, l);
  }

  // A line that does not bind n leaves n alone in the output as well.
  lemma MidOther(lines: seq<string>, l: nat, refs: seq<Ref>, n: Name)
    requires l < |lines| && Orderly(refs) && AllOneLine(lines)
    requires !BindsName(lines, l, n)
    ensures SameAt(Out(lines, l, refs).binds, Mid(lines, l, refs).binds, n)
  {
    MidCases(lines, l, refs);
    if LineHead(lines, l, refs) != [] {
      if ParseLine(lines[l]).Bind? {
        MidOtherKey(lines, l, refs, n);
      } else if Rebuilds(lines, l, refs) {
        RebuildsKeyLine(lines, l, refs);
        assert false;
      }
    }
  }

  lemma MidOtherKey(lines: seq<string>, l: nat, refs: seq<Ref>, n: Name)
    requires l < |lines| && Orderly(refs) && AllOneLine(lines)
    requires ParseLine(lines[l]).Bind? && LineHead(lines, l, refs) != []
    requires !BindsName(lines, l, n)
    ensures SameAt(Out(lines, l, refs).binds, Step(Out(lines, l, refs), LineHead(lines, l, refs)[0]).binds, n)
  {
    KeyLineSection(lines, l, refs);
    if Rebuilds(lines, l, refs) {
      RebuildBinds(lines, l, refs);
      RepIsLive(lines, l, refs);
    }
  }

  // A key line that is written at all is read in the section it came from.
  lemma KeyLineSection(lines: seq<string>, l: nat, refs: seq<Ref>)
    requires l < |lines| && Orderly(refs) && AllOneLine(lines)
    requires ParseLine(lines[l]).Bind? && LineHead(lines, l, refs) != []
    ensures !InRemoved(lines, l, refs) && EqNoCase(Out(lines, l, refs).sec, SecAt(lines, l))
  {
    if InRemoved(lines, l, refs) {
      RemovedKeyLineDropped(lines, l, refs);
      assert false;
    }
    SecSim(lines, l, refs);
  }

  // No key added after line l is called n.
  lemma NoneLands(lines: seq<string>, l: nat, refs: seq<Ref>, n: Name)
    requires l < |lines| && Orderly(refs) && AllOneLine(lines)
    requires forall r | r in Landing(lines, refs, AfterLine(l)) :: RefName(r) != n
    ensures SameAt(Mid(lines, l, refs).binds, Out(lines, l + 1, refs).binds, n)
  {
    LineFacts(lines, l, refs);
    LoadKeyLinesOther(Mid(lines, l, refs), Landing(lines, refs, AfterLine(l)), n);
  }

  lemma NoneNamed(lines: seq<string>, refs: seq<Ref>, p: Place, n: Name)
    requires forall r | r in refs && Live(r) :: RefName(r) != n
    ensures forall r | r in Landing(lines, refs, p) :: RefName(r) != n
    ensures forall i | 0 <= i < |Landing(lines, refs, p)| :: RefName(Landing(lines, refs, p)[i]) != n
  {
    var rs := Landing(lines, refs, p);
    forall i | 0 <= i < |rs|
      ensures RefName(rs[i]) != n
    {
      assert rs[i] in refs && Lands(lines, rs[i], p);
    }
  }

  lemma TopOther(lines: seq<string>, refs: seq<Ref>, n: Name)
    requires Orderly(refs)
    requires forall r | r in refs && Live(r) :: RefName(r) != n
    ensures n !in Out(lines, 0, refs).binds
  {
    TopFits(lines, refs);
    NoneNamed(lines, refs, AtTop, n);
    LoadKeyLinesOther(EMPTY, Landing(lines, refs, AtTop), n);
  }

  lemma TopSet(lines: seq<string>, refs: seq<Ref>, r: Ref)
    requires Orderly(refs) && r in refs && Lands(lines, r, AtTop)
    ensures BoundAs(Out(lines, 0, refs).binds, r, KeyLine(r))
  {
    TopFits(lines, refs);
    LandingHas(lines, refs, AtTop, r);
    LandingUnique(lines, refs, AtTop, r);
    LoadKeyLinesSet(EMPTY, Landing(lines, refs, AtTop), r);
  }

  // ---- names the save leaves alone

  predicate Untouched(refs: seq<Ref>, n: Name) {
    !Gone(refs, n) && forall r | r in refs && Live(r) :: RefName(r) != n
  }

  lemma UntouchedKept(lines: seq<string>, l: nat, refs: seq<Ref>, n: Name)
    requires l < |lines| && Orderly(refs) && Untouched(refs, n) && BindsName(lines, l, n)
    ensures LineHead(lines, l, refs) == [lines[l]]
  {
    BoundNonBlank(lines[l]);
    if InRemoved(lines, l, refs) {
      RemovedSections(lines, l, refs);
      assert false;
    }
    assert !InRemoved(lines, l + 1, refs);
    assert !TakenOut(lines, l, refs);
    if Rebuilds(lines, l, refs) {
      RepIsLive(lines, l, refs);
      assert false;
    }
  }

  lemma {:induction false} UntouchedBody(lines: seq<string>, l: nat, refs: seq<Ref>, n: Name)
    requires l <= |lines| && Orderly(refs) && AllOneLine(lines) && Untouched(refs, n)
    ensures SameAt(In(lines, l).binds, Out(lines, l, refs).binds, n)
  {
    hide *;
    if l == 0 {
      UntouchedTop(lines, refs, n);
    } else {
      UntouchedBody(lines, l - 1, refs, n);
      UntouchedStep(lines, l - 1, refs, n);
    }
  }

  lemma UntouchedTop(lines: seq<string>, refs: seq<Ref>, n: Name)
    requires Orderly(refs) && Untouched(refs, n)
    ensures SameAt(In(lines, 0).binds, Out(lines, 0, refs).binds, n)
  {
    assert lines[..0] == [];
    TopOther(lines, refs, n);
  }

  lemma UntouchedStep(lines: seq<string>, l: nat, refs: seq<Ref>, n: Name)
    requires l < |lines| && Orderly(refs) && AllOneLine(lines) && Untouched(refs, n)
    requires SameAt(In(lines, l).binds, Out(lines, l, refs).binds, n)
    ensures SameAt(In(lines, l + 1).binds, Out(lines, l + 1, refs).binds, n)
  {
    hide In, Out, Mid, Landing;
    UntouchedMid(lines, l, refs, n);
    NoneNamed(lines, refs, AfterLine(l), n);
    NoneLands(lines, l, refs, n);
  }

  lemma UntouchedMid(lines: seq<string>, l: nat, refs: seq<Ref>, n: Name)
    requires l < |lines| && Orderly(refs) && AllOneLine(lines) && Untouched(refs, n)
    requires SameAt(In(lines, l).binds, Out(lines, l, refs).binds, n)
    ensures SameAt(In(lines, l + 1).binds, Mid(lines, l, refs).binds, n)
  {
    InStepOther(lines, l, n);
    if BindsName(lines, l, n) {
      UntouchedKept(lines, l, refs, n);
      KeyLineSection(lines, l, refs);
      MidCases(lines, l, refs);
    } else {
      MidOther(lines, l, refs, n);
    }
  }

  // ---- names the save takes out

  lemma GoneDropped(lines: seq<string>, l: nat, refs: seq<Ref>, n: Name)
    requires l < |lines| && Orderly(refs) && Gone(refs, n) && BindsName(lines, l, n)
    ensures LineHead(lines, l, refs) == []
  {
    var d :| 0 <= d < |refs| &&
      if refs[d].SectionRef? then Lower(refs[d].sec) == n.0 else refs[d].removed && RefName(refs[d]) == n;
    if refs[d].SectionRef? {
      assert Owed(refs, SecAt(lines, l));
      RemovedSections(lines, l, refs);
      RemovedKeyLineDropped(lines, l, refs);
    } else {
      assert Hits(lines, l, refs[d]);
      assert TakenOut(lines, l, refs);
    }
  }

  lemma NoLiveGone(refs: seq<Ref>, n: Name)
    requires Apart(refs) && Gone(refs, n)
    ensures forall r | r in refs && Live(r) :: RefName(r) != n
  {
    forall r | r in refs && Live(r)
      ensures RefName(r) != n
    {
      LiveNotGone(refs, r);
    }
  }

  lemma {:induction false} GoneBody(lines: seq<string>, l: nat, refs: seq<Ref>, n: Name)
    requires l <= |lines| && Orderly(refs) && AllOneLine(lines) && Gone(refs, n)
    ensures n !in Out(lines, l, refs).binds
  {
    hide *;
    if l == 0 {
      GoneTop(lines, refs, n);
    } else {
      GoneBody(lines, l - 1, refs, n);
      GoneStep(lines, l - 1, refs, n);
    }
  }

  lemma GoneTop(lines: seq<string>, refs: seq<Ref>, n: Name)
    requires Orderly(refs) && Gone(refs, n)
    ensures n !in Out(lines, 0, refs).binds
  {
    NoLiveGone(refs, n);
    TopOther(lines, refs, n);
  }

  lemma GoneStep(lines: seq<string>, l: nat, refs: seq<Ref>, n: Name)
    requires l < |lines| && Orderly(refs) && AllOneLine(lines) && Gone(refs, n)
    requires n !in Out(lines, l, refs).binds
    ensures n !in Out(lines, l + 1, refs).binds
  {
    hide Out, Mid, Landing;
    NoLiveGone(refs, n);
    GoneMid(lines, l, refs, n);
    NoneNamed(lines, refs, AfterLine(l), n);
    NoneLands(lines, l, refs, n);
  }

  lemma GoneMid(lines: seq<string>, l: nat, refs: seq<Ref>, n: Name)
    requires l < |lines| && Orderly(refs) && AllOneLine(lines) && Gone(refs, n)
    requires n !in Out(lines, l, refs).binds
    ensures n !in Mid(lines, l, refs).binds
  {
    MidCases(lines, l, refs);
    if BindsName(lines, l, n) {
      GoneDropped(lines, l, refs, n);
    } else {
      MidOther(lines, l, refs, n);
    }
  }

  // ---- names the save sets

  // r has been written by the time the first l lines are out
  predicate Written(lines: seq<string>, l: nat, r: Ref) {
    var h := LastHit(lines, |lines|, r);
    var a := Anchor(lines, |lines|, r);
    if h >= 0 then h < l else if a >= 0 then a < l else r.sec == ""
  }

  lemma SetRebuilt(lines: seq<string>, l: nat, refs: seq<Ref>, r: Ref)
    requires l < |lines| && Orderly(refs) && AllOneLine(lines)
    requires r in refs && Live(r) && LastHit(lines, |lines|, r) == l
    ensures Rebuilds(lines, l, refs) && refs[Rep(lines, l, refs)] == r
  {
    assert BindsName(lines, l, RefName(r));
    BoundNonBlank(lines[l]);
    LiveNotGone(refs, r);
    if InRemoved(lines, l, refs) {
      RemovedSections(lines, l, refs);
      OwedNoCase(refs, r.sec, SecAt(lines, l));
      assert false;
    }
    assert !InRemoved(lines, l + 1, refs);
    assert !TakenOut(lines, l, refs);
    assert !Dropped(lines, l, refs);
    var e :| 0 <= e < |refs| && refs[e] == r;
    RepFound(lines, l, refs, 0, e);
    var q := refs[Rep(lines, l, refs)];
    assert Hits(lines, l, q);
    LiveUnique(refs, r, q);
  }

  lemma SetMid(lines: seq<string>, l: nat, refs: seq<Ref>, r: Ref)
    requires l < |lines| && Orderly(refs) && AllOneLine(lines)
    requires r in refs && Live(r) && LastHit(lines, |lines|, r) == l
    ensures BoundAs(Mid(lines, l, refs).binds, r, SavedLine(lines, r))
  {
    SetRebuilt(lines, l, refs, r);
    RebuildBinds(lines, l, refs);
    RepIsLive(lines, l, refs);
    KeyLineSection(lines, l, refs);
    MidCases(lines, l, refs);
  }

  lemma SetLands(lines: seq<string>, l: nat, refs: seq<Ref>, r: Ref)
    requires l < |lines| && Orderly(refs) && AllOneLine(lines)
    requires r in refs && Lands(lines, r, AfterLine(l))
    ensures BoundAs(Out(lines, l + 1, refs).binds, r, SavedLine(lines, r))
  {
    LineFacts(lines, l, refs);
    var rs := Landing(lines, refs, AfterLine(l));
    LandingHas(lines, refs, AfterLine(l), r);
    LandingUnique(lines, refs, AfterLine(l), r);
    LoadKeyLinesSet(Mid(lines, l, refs), rs, r);
  }

  lemma LandingUnique(lines: seq<string>, refs: seq<Ref>, p: Place, r: Ref)
    requires Apart(refs) && r in refs && Live(r)
    ensures var rs := Landing(lines, refs, p);
            forall i | 0 <= i < |rs| && RefName(rs[i]) == RefName(r) :: rs[i] == r
  {
    var rs := Landing(lines, refs, p);
    forall i | 0 <= i < |rs| && RefName(rs[i]) == RefName(r)
      ensures rs[i] == r
    {
      assert Lands(lines, rs[i], p);
      LiveUnique(refs, r, rs[i]);
    }
  }

  // A reference written earlier is not written again.
  lemma SetStays(lines: seq<string>, l: nat, refs: seq<Ref>, r: Ref)
    requires l < |lines| && Orderly(refs) && AllOneLine(lines)
    requires r in refs && Live(r) && !Lands(lines, r, AfterLine(l))
    ensures SameAt(Mid(lines, l, refs).binds, Out(lines, l + 1, refs).binds, RefName(r))
  {
    var rs := Landing(lines, refs, AfterLine(l));
    forall q | q in rs
      ensures RefName(q) != RefName(r)
    {
      var i :| 0 <= i < |rs| && rs[i] == q;
      assert Lands(lines, rs[i], AfterLine(l));
      if RefName(q) == RefName(r) {
        LiveUnique(refs, r, q);
        assert false;
      }
    }
    NoneLands(lines, l, refs, RefName(r));
  }

  lemma {:induction false} SetBody(lines: seq<string>, l: nat, refs: seq<Ref>, r: Ref)
    requires l <= |lines| && Orderly(refs) && AllOneLine(lines) && r in refs && Live(r)
    ensures Written(lines, l, r) ==> BoundAs(Out(lines, l, refs).binds, r, SavedLine(lines, r))
    decreases l, 1
  {
    hide *;
    if Written(lines, l, r) {
      if l == 0 {
        WrittenAtTop(lines, r);
        TopSet(lines, refs, r);
      } else {
        SetBodyStep(lines, l - 1, refs, r);
      }
    }
  }

  lemma WrittenAtTop(lines: seq<string>, r: Ref)
    requires Written(lines, 0, r) && Live(r)
    ensures Lands(lines, r, AtTop) && SavedLine(lines, r) == KeyLine(r)
  {
    hide LastHit, Anchor, KeyLine, Rebuild;
  }

  lemma {:induction false} SetBodyStep(lines: seq<string>, l: nat, refs: seq<Ref>, r: Ref)
    requires l < |lines| && Orderly(refs) && AllOneLine(lines) && r in refs && Live(r)
    requires Written(lines, l + 1, r)
    ensures BoundAs(Out(lines, l + 1, refs).binds, r, SavedLine(lines, r))
    decreases l + 1, 0
  {
    if Lands(lines, r, AfterLine(l)) {
      SetLands(lines, l, refs, r);
    } else {
      SetStays(lines, l, refs, r);
      if LastHit(lines, |lines|, r) == l {
        SetMid(lines, l, refs, r);
      } else {
        SetBody(lines, l, refs, r);
        if BindsName(lines, l, RefName(r)) {
          LastHitCovers(lines, |lines|, r, l);
          assert false;
        }
        MidOther(lines, l, refs, RefName(r));
      }
    }
  }

  // ---- sections the file did not have

  lemma {:induction false} NotInFile(lines: seq<string>, n: nat, l: nat, sec: string)
    requires l <= n <= |lines| && sec != "" && !InFile(lines, n, sec)
    ensures !EqNoCase(sec, SecAt(lines, l))
    decreases n
  {
    hide ParseLine;
    if n == 0 {
      assert |Lower(sec)| > 0 && |Lower("")| == 0;
    } else if l < n {
      NotInFile(lines, n - 1, l, sec);
    } else if !ParseLine(lines[n - 1]).Header? {
      NotInFile(lines, n - 1, n - 1, sec);
    }
  }

  // A live reference meets the file, or goes to the top, or needs a new section.
  lemma WrittenOrNew(lines: seq<string>, r: Ref)
    requires Live(r)
    ensures Written(lines, |lines|, r) <==> !IsNew(lines, r)
  {
    if IsNew(lines, r) {
      NewMeetsNothing(lines, r);
    } else if r.sec != "" {
      InFileAnchors(lines, |lines|, r);
    }
  }

  lemma NewMeetsNothing(lines: seq<string>, r: Ref)
    requires IsNew(lines, r)
    ensures LastHit(lines, |lines|, r) < 0 && Anchor(lines, |lines|, r) < 0
  {
    hide ParseLine, SecAt;
    AnchorAnchors(lines, |lines|, r);
    var h, a := LastHit(lines, |lines|, r), Anchor(lines, |lines|, r);
    if h >= 0 {
      NotInFile(lines, |lines|, h, r.sec);
      assert false;
    }
    if a >= 0 {
      NotInFile(lines, |lines|, a + 1, r.sec);
      assert false;
    }
  }

  lemma {:induction false} InFileAnchors(lines: seq<string>, n: nat, r: Ref)
    requires n <= |lines| && InFile(lines, n, r.sec)
    ensures Anchor(lines, n, r) >= 0
  {
    InFileLine(lines, n, r);
    hide *;
    AnchorUnfold(lines, n, r);
    if !Anchors(lines, n - 1, r) {
      InFileAnchors(lines, n - 1, r);
    }
  }

  lemma AnchorUnfold(lines: seq<string>, n: nat, r: Ref)
    requires 0 < n <= |lines|
    ensures Anchor(lines, n, r) == if Anchors(lines, n - 1, r) then n - 1 else Anchor(lines, n - 1, r)
  {
    hide Anchors;
  }

  // A file that has the section has a visible line of it: its header at least.
  lemma InFileLine(lines: seq<string>, n: nat, r: Ref)
    requires n <= |lines| && InFile(lines, n, r.sec)
    ensures n > 0 && (Anchors(lines, n - 1, r) || InFile(lines, n - 1, r.sec))
  {
    hide ParseLine, NonBlank, EqNoCase;
    if ParseLine(lines[n - 1]).Header? {
      BoundNonBlank(lines[n - 1]);
    }
  }

  lemma NewSectionKeys(lines: seq<string>, refs: seq<Ref>, d: nat)
    requires Orderly(refs) && d < |refs|
    ensures KeysOf(Landing(lines, refs[d..], InNew(refs[d].sec)), refs[d].sec)
  {
    var rs := Landing(lines, refs[d..], InNew(refs[d].sec));
    hide WellNamed, InFile, Landing;
    forall i | 0 <= i < |rs|
      ensures Live(rs[i]) && WellNamed(rs[i]) && EqNoCase(rs[i].sec, refs[d].sec)
    {
      assert Lands(lines, rs[i], InNew(refs[d].sec));
      var e :| 0 <= e < |refs[d..]| && refs[d..][e] == rs[i];
      assert refs[d + e] == rs[i];
    }
  }

  lemma HeaderLoads(st: LoadState, sec: string)
    requires GoodSection(sec)
    ensures Loaded(st, ["[" + sec + "]"]) == LoadState(sec, st.binds)
  {
    NewHeaderParses(sec);
    hide ParseLine, Loaded, GoodSection;
    LoadedOne(st, "[" + sec + "]");
  }

  lemma NewSectionLoads(lines: seq<string>, refs: seq<Ref>, d: nat, acc: seq<string>)
    requires Orderly(refs) && d < |refs| && Opens(lines, refs, d)
    ensures var rs := Landing(lines, refs[d..], InNew(refs[d].sec));
            && KeysOf(rs, refs[d].sec)
            && Loaded(EMPTY, acc + Separator(acc) + NewSection(lines, refs, d))
            == Loaded(LoadState(refs[d].sec, Loaded(EMPTY, acc).binds), KeyLines(rs))
  {
    hide *;
    var rs := Landing(lines, refs[d..], InNew(refs[d].sec));
    var header := "[" + refs[d].sec + "]";
    var st0 := Loaded(EMPTY, acc + Separator(acc));
    NewSectionKeys(lines, refs, d);
    OpenedGood(lines, refs, d);
    SeparatorLoads(acc);
    NewSectionIs(lines, refs, d);
    LoadedConcat(EMPTY, acc + Separator(acc), NewSection(lines, refs, d));
    LoadedConcat(st0, [header], KeyLines(rs));
    HeaderLoads(st0, refs[d].sec);
  }

  lemma OpenedGood(lines: seq<string>, refs: seq<Ref>, d: nat)
    requires Orderly(refs) && d < |refs| && Opens(lines, refs, d)
    ensures GoodSection(refs[d].sec)
  {
    assert WellNamed(refs[d]);
    hide GoodSection, InFile;
  }

  lemma NewSectionIs(lines: seq<string>, refs: seq<Ref>, d: nat)
    requires d < |refs|
    ensures NewSection(lines, refs, d)
         == ["[" + refs[d].sec + "]"] + KeyLines(Landing(lines, refs[d..], InNew(refs[d].sec)))
  {
    hide Landing, KeyLines;
  }

  lemma SeparatorLoads(acc: seq<string>)
    ensures Loaded(EMPTY, acc + Separator(acc)).binds == Loaded(EMPTY, acc).binds
  {
    LoadedConcat(EMPTY, acc, Separator(acc));
    if Separator(acc) != [] {
      LoadedOne(Loaded(EMPTY, acc), "");
      assert ParseLine("").Inert?;
    }
  }

  predicate Mentions(rs: seq<Ref>, n: Name) {
    exists i | 0 <= i < |rs| :: RefName(rs[i]) == n
  }

  // One new section leaves every name alone that it does not list.
  lemma NewSectionOther(lines: seq<string>, refs: seq<Ref>, d: nat, acc: seq<string>, n: Name)
    requires Orderly(refs) && d < |refs| && Opens(lines, refs, d)
    requires !Mentions(Landing(lines, refs[d..], InNew(refs[d].sec)), n)
    ensures SameAt(Loaded(EMPTY, acc).binds,
                   Loaded(EMPTY, acc + Separator(acc) + NewSection(lines, refs, d)).binds, n)
  {
    NewSectionLoads(lines, refs, d, acc);
    LoadKeyLinesOther(LoadState(refs[d].sec, Loaded(EMPTY, acc).binds),
                      Landing(lines, refs[d..], InNew(refs[d].sec)), n);
  }

  lemma {:induction false} NewSectionsOther(lines: seq<string>, refs: seq<Ref>, d: nat, acc: seq<string>, n: Name)
    requires Orderly(refs) && d <= |refs|
    requires forall r | r in refs && IsNew(lines, r) :: RefName(r) != n
    ensures SameAt(Loaded(EMPTY, acc).binds, Loaded(EMPTY, NewSections(lines, refs, d, acc)).binds, n)
    decreases |refs| - d
  {
    if d < |refs| {
      if Opens(lines, refs, d) {
        var rs := Landing(lines, refs[d..], InNew(refs[d].sec));
        forall i | 0 <= i < |rs|
          ensures RefName(rs[i]) != n
        {
          assert Lands(lines, rs[i], InNew(refs[d].sec)) && rs[i] in refs[d..];
        }
        NewSectionOther(lines, refs, d, acc, n);
        NewSectionsOther(lines, refs, d + 1, acc + Separator(acc) + NewSection(lines, refs, d), n);
      } else {
        NewSectionsOther(lines, refs, d + 1, acc, n);
      }
    }
  }

  lemma NewSectionSet(lines: seq<string>, refs: seq<Ref>, d: nat, acc: seq<string>, r: Ref)
    requires Orderly(refs) && d < |refs| && Opens(lines, refs, d)
    requires r in refs[d..] && IsNew(lines, r) && EqNoCase(refs[d].sec, r.sec)
    ensures BoundAs(Loaded(EMPTY, acc + Separator(acc) + NewSection(lines, refs, d)).binds, r, KeyLine(r))
  {
    var rs := Landing(lines, refs[d..], InNew(refs[d].sec));
    NewSectionLoads(lines, refs, d, acc);
    LandingHas(lines, refs[d..], InNew(refs[d].sec), r);
    assert r in refs;
    forall i | 0 <= i < |rs| && RefName(rs[i]) == RefName(r)
      ensures rs[i] == r
    {
      assert Lands(lines, rs[i], InNew(refs[d].sec)) && rs[i] in refs[d..];
      LiveUnique(refs, r, rs[i]);
    }
    LoadKeyLinesSet(LoadState(refs[d].sec, Loaded(EMPTY, acc).binds), rs, r);
  }

  // A new section for another name does not mention r.
  lemma NewSectionSkips(lines: seq<string>, refs: seq<Ref>, d: nat, r: Ref)
    requires Apart(refs) && d < |refs|
    requires r in refs && Live(r) && !EqNoCase(refs[d].sec, r.sec)
    ensures !Mentions(Landing(lines, refs[d..], InNew(refs[d].sec)), RefName(r))
  {
    var rs := Landing(lines, refs[d..], InNew(refs[d].sec));
    forall i | 0 <= i < |rs|
      ensures RefName(rs[i]) != RefName(r)
    {
      assert Lands(lines, rs[i], InNew(refs[d].sec)) && rs[i] in refs[d..];
    }
  }

  // The first reference of a section that is new opens it.
  lemma OpensAll(lines: seq<string>, refs: seq<Ref>, d: nat, r: Ref)
    requires d < |refs| && Opens(lines, refs, d)
    requires r in refs && IsNew(lines, r) && EqNoCase(refs[d].sec, r.sec)
    ensures r in refs[d..]
  {
    var e :| 0 <= e < |refs| && refs[e] == r;
    assert refs[d..][e - d] == r;
  }

  lemma {:induction false} NewSectionsSet(lines: seq<string>, refs: seq<Ref>, d: nat, acc: seq<string>, r: Ref)
    requires Orderly(refs) && d <= |refs| && r in refs && IsNew(lines, r)
    requires OpenedBefore(lines, refs, d, r.sec) ==> BoundAs(Loaded(EMPTY, acc).binds, r, KeyLine(r))
    ensures BoundAs(Loaded(EMPTY, NewSections(lines, refs, d, acc)).binds, r, KeyLine(r))
    decreases |refs| - d
  {
    if d == |refs| {
      var e :| 0 <= e < |refs| && refs[e] == r;
      assert OpenedBefore(lines, refs, d, r.sec);
    } else if Opens(lines, refs, d) {
      if EqNoCase(refs[d].sec, r.sec) {
        OpensAll(lines, refs, d, r);
        NewSectionSet(lines, refs, d, acc, r);
      } else {
        NewSectionSkips(lines, refs, d, r);
        NewSectionOther(lines, refs, d, acc, RefName(r));
      }
      NewSectionsSet(lines, refs, d + 1, acc + Separator(acc) + NewSection(lines, refs, d), r);
    } else {
      OpenedStep(lines, refs, d, r.sec);
      NewSectionsSet(lines, refs, d + 1, acc, r);
    }
  }

  lemma OpenedStep(lines: seq<string>, refs: seq<Ref>, d: nat, sec: string)
    requires d < |refs| && !Opens(lines, refs, d)
    ensures OpenedBefore(lines, refs, d + 1, sec) ==> OpenedBefore(lines, refs, d, sec)
  {
    if OpenedBefore(lines, refs, d + 1, sec) {
      var d' :| 0 <= d' < d + 1 && IsNew(lines, refs[d']) && EqNoCase(refs[d'].sec, sec);
      if d' == d {
        assert OpenedBefore(lines, refs, d, refs[d].sec);
        var e :| 0 <= e < d && IsNew(lines, refs[e]) && EqNoCase(refs[e].sec, refs[d].sec);
        assert EqNoCase(refs[e].sec, sec);
      }
    }
  }

  // ---- the whole save

  // A live reference has no newline in it.
  predicate Writable(r: Ref) {
    Live(r) ==> OneLine(r.sec) && OneLine(r.key) && OneLine(r.value)
  }

  predicate AllWritable(refs: seq<Ref>) {
    forall i | 0 <= i < |refs| :: Writable(refs[i])
  }

  lemma OrderlyWritable(refs: seq<Ref>)
    requires Orderly(refs)
    ensures AllWritable(refs)
  {
    forall i | 0 <= i < |refs|
      ensures Writable(refs[i])
    {
      assert WellNamed(refs[i]);
    }
  }

  lemma OneLineAppend(a: seq<string>, b: seq<string>)
    requires AllOneLine(a) && AllOneLine(b)
    ensures AllOneLine(a + b)
  {
  }

  // ---- where a written line comes from

  // A line written for a live reference: its key line or its section's header
  predicate RefLine(r: Ref, x: string) {
    Live(r) && (x == KeyLine(r) || x == "[" + r.sec + "]")
  }

  predicate RebuiltLine(lines: seq<string>, refs: seq<Ref>, l: nat, x: string)
    requires l < |lines|
  {
    Rebuilds(lines, l, refs) && LineHead(lines, l, refs) == [x]
  }

  predicate From(lines: seq<string>, refs: seq<Ref>, x: string) {
    || x == ""
    || x in lines
    || (exists r | r in refs :: RefLine(r, x))
    || (exists l | 0 <= l < |lines| :: RebuiltLine(lines, refs, l, x))
  }

  predicate AllFrom(lines: seq<string>, refs: seq<Ref>, out: seq<string>) {
    forall i | 0 <= i < |out| :: From(lines, refs, out[i])
  }

  lemma FromAppend(lines: seq<string>, refs: seq<Ref>, a: seq<string>, b: seq<string>)
    requires AllFrom(lines, refs, a) && AllFrom(lines, refs, b)
    ensures AllFrom(lines, refs, a + b)
  {
    hide From;
  }

  lemma {:induction false} KeyLinesAt(rs: seq<Ref>, i: nat)
    requires i < |rs|
    ensures KeyLines(rs)[i] == KeyLine(rs[i])
  {
    KeyLinesHead(rs);
    if i > 0 {
      KeyLinesAt(rs[1..], i - 1);
      assert KeyLines(rs)[i] == KeyLines(rs)[1..][i - 1];
    }
  }

  lemma LandingFrom(lines: seq<string>, refs: seq<Ref>, part: seq<Ref>, p: Place)
    requires forall r | r in part :: r in refs
    ensures AllFrom(lines, refs, KeyLines(Landing(lines, part, p)))
  {
    var rs := Landing(lines, part, p);
    forall i | 0 <= i < |rs|
      ensures From(lines, refs, KeyLines(rs)[i])
    {
      KeyLinesAt(rs, i);
      assert rs[i] in part && Lands(lines, rs[i], p);
      assert RefLine(rs[i], KeyLines(rs)[i]);
    }
  }

  lemma HeadFrom(lines: seq<string>, l: nat, refs: seq<Ref>)
    requires l < |lines|
    ensures AllFrom(lines, refs, LineHead(lines, l, refs))
  {
    if Rebuilds(lines, l, refs) {
      RebuildsKeyLine(lines, l, refs);
      assert RebuiltLine(lines, refs, l, LineHead(lines, l, refs)[0]);
    }
  }

  lemma BodyUnfold(lines: seq<string>, l: nat, refs: seq<Ref>)
    requires l <= |lines|
    ensures l == 0 ==> Body(lines, l, refs) == KeyLines(Landing(lines, refs, AtTop))
    ensures l > 0 ==> Body(lines, l, refs) == Body(lines, l - 1, refs) + LineOut(lines, l - 1, refs)
    ensures l > 0 ==>
              LineOut(lines, l - 1, refs) == LineHead(lines, l - 1, refs) + KeyLines(Landing(lines, refs, AfterLine(l - 1)))
  {
    hide LineHead, KeyLines, Landing;
  }

  lemma {:induction false} BodyFrom(lines: seq<string>, l: nat, refs: seq<Ref>)
    requires l <= |lines|
    ensures AllFrom(lines, refs, Body(lines, l, refs))
  {
    hide *;
    BodyUnfold(lines, l, refs);
    if l == 0 {
      LandingFrom(lines, refs, refs, AtTop);
    } else {
      BodyFrom(lines, l - 1, refs);
      LandingFrom(lines, refs, refs, AfterLine(l - 1));
      HeadFrom(lines, l - 1, refs);
      FromAppend(lines, refs, LineHead(lines, l - 1, refs), KeyLines(Landing(lines, refs, AfterLine(l - 1))));
      FromAppend(lines, refs, Body(lines, l - 1, refs), LineOut(lines, l - 1, refs));
    }
  }

  lemma NewSectionFrom(lines: seq<string>, refs: seq<Ref>, d: nat)
    requires d < |refs| && Opens(lines, refs, d)
    ensures AllFrom(lines, refs, NewSection(lines, refs, d))
  {
    var header := "[" + refs[d].sec + "]";
    assert RefLine(refs[d], header);
    assert AllFrom(lines, refs, [header]);
    LandingFrom(lines, refs, refs[d..], InNew(refs[d].sec));
    FromAppend(lines, refs, [header], KeyLines(Landing(lines, refs[d..], InNew(refs[d].sec))));
  }

  lemma SeparatorFrom(lines: seq<string>, refs: seq<Ref>, acc: seq<string>)
    ensures AllFrom(lines, refs, Separator(acc))
  {
  }

  lemma NewSectionsUnfold(lines: seq<string>, refs: seq<Ref>, d: nat, acc: seq<string>)
    requires d <= |refs|
    ensures d == |refs| ==> NewSections(lines, refs, d, acc) == acc
    ensures d < |refs| ==>
              var now := if Opens(lines, refs, d) then acc + Separator(acc) + NewSection(lines, refs, d) else acc;
              NewSections(lines, refs, d, acc) == NewSections(lines, refs, d + 1, now)
  {
    hide Opens, NewSection, Separator;
  }

  lemma {:induction false} NewSectionsFrom(lines: seq<string>, refs: seq<Ref>, d: nat, acc: seq<string>)
    requires d <= |refs| && AllFrom(lines, refs, acc)
    ensures AllFrom(lines, refs, NewSections(lines, refs, d, acc))
    decreases |refs| - d
  {
    hide AllFrom;
    if d < |refs| {
      if Opens(lines, refs, d) {
        NewSectionFrom(lines, refs, d);
        SeparatorFrom(lines, refs, acc);
        FromAppend(lines, refs, acc, Separator(acc));
        FromAppend(lines, refs, acc + Separator(acc), NewSection(lines, refs, d));
        NewSectionsFrom(lines, refs, d + 1, acc + Separator(acc) + NewSection(lines, refs, d));
      } else {
        NewSectionsFrom(lines, refs, d + 1, acc);
      }
    }
  }

  /** Every line of a saved file is a line of the old file, a blank line, the
      key line or the header of a live reference, or a line rebuilt for one. */
  lemma SurgicalFrom(lines: seq<string>, refs: seq<Ref>)
    ensures AllFrom(lines, refs, SurgicalLines(lines, refs))
  {
    BodyFrom(lines, |lines|, refs);
    NewSectionsFrom(lines, refs, 0, Body(lines, |lines|, refs));
  }

  // ---- no written line holds a newline

  lemma RebuildOneLine(raw: string, r: Ref)
    requires Live(r) && Writable(r) && OneLine(raw) && ParseLine(raw).Bind? && KeyEnd(raw) <= |raw|
    ensures OneLine(Rebuild(raw, r))
  {
    CommentOneLine(raw);
    assert forall x | x in raw[..KeyEnd(raw)] :: x in raw;
    var com := if KeyEnd(raw) + 3 + |r.value| + |CommentOf(raw)| >= MAX_LINE then "" else CommentOf(raw);
    OneLineConcat(raw[..KeyEnd(raw)], r.value, com);
    OneLineConcat(r.key, r.value, com);
  }

  lemma RefLineOneLine(r: Ref, x: string)
    requires Writable(r) && RefLine(r, x)
    ensures OneLine(x)
  {
    OneLineConcat(r.key, r.value, "");
    assert r.key + " = " + r.value + "" == KeyLine(r);
    assert forall c | c in "[" + r.sec + "]" :: c in r.sec || c == '[' || c == ']';
  }

  lemma FromOneLine(lines: seq<string>, refs: seq<Ref>, x: string)
    requires AllWritable(refs) && AllOneLine(lines) && From(lines, refs, x)
    ensures OneLine(x)
  {
    if x in lines {
      var i :| 0 <= i < |lines| && lines[i] == x;
    } else if r :| r in refs && RefLine(r, x) {
      var d :| 0 <= d < |refs| && refs[d] == r;
      RefLineOneLine(refs[d], x);
    } else if x != "" {
      var l :| 0 <= l < |lines| && RebuiltLine(lines, refs, l, x);
      RepIsLive(lines, l, refs);
      RebuildsKeyLine(lines, l, refs);
      assert Writable(refs[Rep(lines, l, refs)]);
      RebuildOneLine(lines[l], refs[Rep(lines, l, refs)]);
    }
  }

  lemma AllFromOneLine(lines: seq<string>, refs: seq<Ref>, out: seq<string>)
    requires AllWritable(refs) && AllOneLine(lines) && AllFrom(lines, refs, out)
    ensures AllOneLine(out)
  {
    forall i | 0 <= i < |out|
      ensures OneLine(out[i])
    {
      FromOneLine(lines, refs, out[i]);
    }
  }

  lemma SurgicalOneLine(lines: seq<string>, refs: seq<Ref>)
    requires AllWritable(refs) && AllOneLine(lines)
    ensures AllOneLine(SurgicalLines(lines, refs))
    ensures Lines(Unlines(SurgicalLines(lines, refs))) == SurgicalLines(lines, refs)
  {
    SurgicalFrom(lines, refs);
    AllFromOneLine(lines, refs, SurgicalLines(lines, refs));
    LinesOfUnlines(SurgicalLines(lines, refs));
  }

  // What the loader binds in the file a save wrote
  function Saved(lines: seq<string>, refs: seq<Ref>): map<Name, string> {
    Loaded(EMPTY, SurgicalLines(lines, refs)).binds
  }

  lemma SavedOther(lines: seq<string>, refs: seq<Ref>, n: Name)
    requires Orderly(refs)
    requires forall r | r in refs && IsNew(lines, r) :: RefName(r) != n
    ensures SameAt(Out(lines, |lines|, refs).binds, Saved(lines, refs), n)
  {
    NewSectionsOther(lines, refs, 0, Body(lines, |lines|, refs), n);
  }

  /** A name no reference is about keeps the very line that bound it. */
  lemma SavedUntouched(lines: seq<string>, refs: seq<Ref>, n: Name)
    requires Orderly(refs) && AllOneLine(lines) && Untouched(refs, n)
    ensures SameAt(Loaded(EMPTY, lines).binds, Saved(lines, refs), n)
  {
    UntouchedBody(lines, |lines|, refs, n);
    assert lines[..|lines|] == lines;
    SavedOther(lines, refs, n);
  }

  /** A name the save takes out is not bound any more, by any duplicate. */
  lemma SavedGone(lines: seq<string>, refs: seq<Ref>, n: Name)
    requires Orderly(refs) && AllOneLine(lines) && Gone(refs, n)
    ensures n !in Saved(lines, refs)
  {
    GoneBody(lines, |lines|, refs, n);
    NoLiveGone(refs, n);
    SavedOther(lines, refs, n);
  }

  /** A name the save sets is bound by the line written for it: the line that bound it
      last, rebuilt, or its key line. */
  lemma SavedSet(lines: seq<string>, refs: seq<Ref>, r: Ref)
    requires Orderly(refs) && AllOneLine(lines) && r in refs && Live(r)
    ensures BoundAs(Saved(lines, refs), r, SavedLine(lines, r))
  {
    WrittenOrNew(lines, r);
    if IsNew(lines, r) {
      NewMeetsNothing(lines, r);
      NewSectionsSet(lines, refs, 0, Body(lines, |lines|, refs), r);
    } else {
      SetBody(lines, |lines|, refs, r);
      forall q | q in refs && IsNew(lines, q)
        ensures RefName(q) != RefName(r)
      {
        if RefName(q) == RefName(r) {
          LiveUnique(refs, r, q);
          assert false;
        }
      }
      SavedOther(lines, refs, RefName(r));
    }
  }

  // What r's value reads back as from the line written for it
  function SavedValue(lines: seq<string>, r: Ref): string
    requires r.KeyRef?
  {
    Clip(ValueOf(r.value + SavedComment(lines, r)), MAX_VAL - 1)
  }

  // r's value survives the save: the loader takes none of it for a comment or for
  // white space around it, nor a comment for it.
  predicate Survives(lines: seq<string>, r: Ref)
    requires r.KeyRef?
  {
    Plain(r.value) && (r.value != "" || SavedComment(lines, r) == "")
  }

  /** The dirty list applied to a plain map. */
  predicate AppliedAt(before: map<Name, string>, after: map<Name, string>, lines: seq<string>, refs: seq<Ref>, n: Name) {
    && (Gone(refs, n) ==> n !in after)
    && (forall r | r in refs && SetTo(refs, n, r) ::
          n in after && after[n] == SavedValue(lines, r) && (after[n] == r.value <==> Survives(lines, r)))
    && (Untouched(refs, n) ==> SameAt(before, after, n))
  }

  lemma SavedLineReads(lines: seq<string>, r: Ref)
    requires Live(r) && WellNamed(r) && AllOneLine(lines)
    ensures Reads(SavedLine(lines, r), r, SavedComment(lines, r))
  {
    var h := LastHit(lines, |lines|, r);
    if h < 0 {
      KeyLineReads(r);
    } else {
      KeyLineShape(lines[h]);
      HitSameKey(lines, h, r);
      hide ParseLine, LastHit, KeyEnd, Lower;
      RebuildReads(lines[h], r);
    }
  }

  lemma HitSameKey(lines: seq<string>, l: nat, r: Ref)
    requires l < |lines| && r.KeyRef? && Hits(lines, l, r)
    ensures ParseLine(lines[l]).Bind? && Lower(Clip(ParseLine(lines[l]).key, MAX_KEY - 1)) == Lower(r.key)
  {
  }

  lemma SavedCommentRun(lines: seq<string>, r: Ref)
    requires r.KeyRef?
    ensures SavedComment(lines, r) != "" ==> CommentRun(SavedComment(lines, r))
  {
    var h := LastHit(lines, |lines|, r);
    if h >= 0 {
      HitSameKey(lines, h, r);
      KeyLineShape(lines[h]);
    }
  }

  lemma SavedValueReads(lines: seq<string>, refs: seq<Ref>, r: Ref)
    requires Orderly(refs) && AllOneLine(lines) && r in refs && Live(r)
    ensures RefName(r) in Saved(lines, refs)
    ensures ValueIn(Saved(lines, refs)[RefName(r)]) == SavedValue(lines, r)
    ensures SavedValue(lines, r) == r.value <==> Survives(lines, r)
  {
    hide *;
    WellNamedOf(refs, r);
    SavedSet(lines, refs, r);
    ShortValue(r);
    SavedCommentRun(lines, r);
    SavedLineReads(lines, r);
    ReadBack(r.value, SavedComment(lines, r));
    ReadsValue(SavedLine(lines, r), r, SavedComment(lines, r));
    SavedIsBound(lines, refs, r);
  }

  lemma ShortValue(r: Ref)
    requires Live(r) && WellNamed(r)
    ensures r.KeyRef? && |r.value| < MAX_VAL
  {
  }

  lemma ReadsValue(raw: string, r: Ref, c: string)
    requires Reads(raw, r, c)
    ensures r.KeyRef? && ValueIn(raw) == Clip(ValueOf(r.value + c), MAX_VAL - 1)
  {
    hide ParseLine, ValueOf;
  }

  lemma SavedIsBound(lines: seq<string>, refs: seq<Ref>, r: Ref)
    requires r.KeyRef? && BoundAs(Saved(lines, refs), r, SavedLine(lines, r))
    requires ValueIn(SavedLine(lines, r)) == Clip(ValueOf(r.value + SavedComment(lines, r)), MAX_VAL - 1)
    requires Clip(ValueOf(r.value + SavedComment(lines, r)), MAX_VAL - 1) == r.value
             <==> Plain(r.value) && (r.value != "" || SavedComment(lines, r) == "")
    ensures RefName(r) in Saved(lines, refs)
    ensures ValueIn(Saved(lines, refs)[RefName(r)]) == SavedValue(lines, r)
    ensures SavedValue(lines, r) == r.value <==> Survives(lines, r)
  {
    hide Saved, SavedLine, SavedComment, ValueIn, ValueOf, Plain, RefName;
  }

  lemma SavedValueAt(lines: seq<string>, refs: seq<Ref>, n: Name)
    requires Orderly(refs) && AllOneLine(lines)
    ensures AppliedAt(Values(Loaded(EMPTY, lines).binds), Values(Saved(lines, refs)), lines, refs, n)
  {
    hide Saved, SavedValue, Survives, ValueIn, Gone, RefName, Orderly;
    if Gone(refs, n) {
      SavedGone(lines, refs, n);
    }
    if Untouched(refs, n) {
      SavedUntouched(lines, refs, n);
    }
    forall r | r in refs && SetTo(refs, n, r)
      ensures n in Saved(lines, refs) && ValueIn(Saved(lines, refs)[n]) == SavedValue(lines, r)
      ensures SavedValue(lines, r) == r.value <==> Survives(lines, r)
    {
      SavedValueReads(lines, refs, r);
    }
  }

  lemma WellNamedOf(refs: seq<Ref>, r: Ref)
    requires Orderly(refs) && r in refs
    ensures WellNamed(r)
  {
    var d :| 0 <= d < |refs| && refs[d] == r;
  }

  /** Save meaning. For every file and every orderly dirty list, whatever its values
      are, loading the saved file gives the old map with each set key at what its
      value reads back as (the value itself exactly when it survives), each unset
      key gone, each removed section gone with every key under it, and every other
      key unchanged. */
  lemma SaveMeaning(text: string, refs: seq<Ref>)
    requires Orderly(refs)
    ensures forall n :: AppliedAt(Meaning(text), Meaning(SurgicalText(text, refs)), Lines(text), refs, n)
  {
    hide AppliedAt, Orderly;
    LinesAreLines(text);
    OrderlyWritable(refs);
    SurgicalOneLine(Lines(text), refs);
    forall n
      ensures AppliedAt(Meaning(text), Meaning(SurgicalText(text, refs)), Lines(text), refs, n)
    {
      SavedValueAt(Lines(text), refs, n);
    }
  }
}
