/** Saving again changes nothing, and a save touches only the lines it owns.

    After a save no header of a removed section is left (`NoneOwed`), and the line
    that binds a name last is settled for the reference that owns the name. On such a
    file every line is kept as it is and no reference needs a new line, so the next
    save writes the same text. The places of kept lines in the output (`OutPos`)
    only go up, which keeps their order. */
module ConfigSaveStable {
  import opened CText
  import opened ConfigLines
  import opened ConfigValues
  import opened ConfigMeaning
  import opened ConfigStore
  import opened ConfigSave
  import opened ConfigSaveMeaning

  // ---- lines that stay

  lemma {:induction false} NewSectionsExtend(lines: seq<string>, refs: seq<Ref>, d: nat, acc: seq<string>)
    requires d <= |refs|
    ensures acc <= NewSections(lines, refs, d, acc)
    decreases |refs| - d
  {
    if d < |refs| {
      if Opens(lines, refs, d) {
        NewSectionsExtend(lines, refs, d + 1, acc + Separator(acc) + NewSection(lines, refs, d));
      } else {
        NewSectionsExtend(lines, refs, d + 1, acc);
      }
    }
  }

  lemma BodyStep(lines: seq<string>, l: nat, refs: seq<Ref>)
    requires l < |lines|
    ensures Body(lines, l + 1, refs) == Body(lines, l, refs) + LineOut(lines, l, refs)
  {
  }

  lemma {:induction false} BodyExtends(lines: seq<string>, l: nat, n: nat, refs: seq<Ref>)
    requires l <= n <= |lines|
    ensures Body(lines, l, refs) <= Body(lines, n, refs)
    decreases n
  {
    hide *;
    if l < n {
      BodyExtends(lines, l, n - 1, refs);
      BodyStep(lines, n - 1, refs);
      PrefixGrows(Body(lines, l, refs), Body(lines, n - 1, refs), LineOut(lines, n - 1, refs));
    }
  }

  lemma PrefixGrows(a: seq<string>, b: seq<string>, c: seq<string>)
    requires a <= b
    ensures a <= b + c
  {
  }

  // Where an input line that stays is found in the output
  function OutPos(lines: seq<string>, l: nat, refs: seq<Ref>): nat
    requires l <= |lines|
  {
    |Body(lines, l, refs)|
  }

  /** Nothing the save is about owns the line: no reference binds it, it is not
      a visible line of a removed section, and not the blank above its header. */
  predicate NotOwned(lines: seq<string>, l: nat, refs: seq<Ref>)
    requires l < |lines|
  {
    && (forall d | 0 <= d < |refs| :: !Hits(lines, l, refs[d]))
    && (NonBlank(lines[l]) ==> !Owed(refs, SecAt(lines, l + 1)))
    && (!NonBlank(lines[l]) && l + 1 < |lines| ==> !DropsHeader(lines, l + 1, refs))
  }

  lemma NotOwnedKept(lines: seq<string>, l: nat, refs: seq<Ref>)
    requires l < |lines| && NotOwned(lines, l, refs)
    ensures LineHead(lines, l, refs) == [lines[l]]
  {
    if InRemoved(lines, l + 1, refs) {
      RemovedOwed(lines, l + 1, refs);
    }
    assert !DropsHeader(lines, l, refs);
    assert !TakenOut(lines, l, refs);
    assert !Dropped(lines, l, refs);
    if Rebuilds(lines, l, refs) {
      RebuildsKeyLine(lines, l, refs);
      assert false;
    }
  }

  /** Save is local: every line the save does not own is in the output, byte
      for byte, and those lines keep their order. */
  lemma SaveIsLocal(lines: seq<string>, l: nat, m: nat, refs: seq<Ref>)
    requires l < m < |lines|
    requires NotOwned(lines, l, refs) && NotOwned(lines, m, refs)
    ensures OutPos(lines, l, refs) < OutPos(lines, m, refs) < |SurgicalLines(lines, refs)|
    ensures SurgicalLines(lines, refs)[OutPos(lines, l, refs)] == lines[l]
    ensures SurgicalLines(lines, refs)[OutPos(lines, m, refs)] == lines[m]
  {
    hide NotOwned, SurgicalLines, Body;
    KeptAt(lines, l, refs);
    KeptAt(lines, m, refs);
    BodyExtends(lines, l + 1, m, refs);
  }

  lemma KeptAt(lines: seq<string>, l: nat, refs: seq<Ref>)
    requires l < |lines| && NotOwned(lines, l, refs)
    ensures OutPos(lines, l, refs) < OutPos(lines, l + 1, refs) <= |SurgicalLines(lines, refs)|
    ensures SurgicalLines(lines, refs)[OutPos(lines, l, refs)] == lines[l]
  {
    hide Body, NewSections, LineHead, NotOwned;
    NotOwnedKept(lines, l, refs);
    BodyExtends(lines, l + 1, |lines|, refs);
    NewSectionsExtend(lines, refs, 0, Body(lines, |lines|, refs));
    KeptNext(lines, l, refs);
  }

  lemma KeptNext(lines: seq<string>, l: nat, refs: seq<Ref>)
    requires l < |lines| && LineHead(lines, l, refs) == [lines[l]]
    ensures var b := Body(lines, l, refs);
            |b| < |Body(lines, l + 1, refs)| && Body(lines, l + 1, refs)[|b|] == lines[l]
  {
    hide LineHead, KeyLines;
    BodyStep(lines, l, refs);
  }

  // ---- no header of a removed section is left

  predicate NoneOwed(lines: seq<string>, refs: seq<Ref>) {
    forall i | 0 <= i < |lines| :: !DropsHeader(lines, i, refs)
  }

  lemma NoneOwedAppend(a: seq<string>, b: seq<string>, refs: seq<Ref>)
    requires NoneOwed(a, refs) && NoneOwed(b, refs)
    ensures NoneOwed(a + b, refs)
  {
    forall i | 0 <= i < |a + b|
      ensures !DropsHeader(a + b, i, refs)
    {
      if i < |a| {
        assert !DropsHeader(a, i, refs);
      } else {
        assert !DropsHeader(b, i - |a|, refs);
      }
    }
  }

  lemma {:induction false} KeyLinesNoneOwed(rs: seq<Ref>, refs: seq<Ref>)
    requires forall i | 0 <= i < |rs| :: Live(rs[i]) && WellNamed(rs[i])
    ensures NoneOwed(KeyLines(rs), refs)
  {
    if rs != [] {
      KeyLineReads(rs[0]);
      KeyLinesNoneOwed(rs[1..], refs);
      assert NoneOwed([KeyLine(rs[0])], refs);
      NoneOwedAppend([KeyLine(rs[0])], KeyLines(rs[1..]), refs);
    }
  }

  lemma LandingNoneOwed(lines: seq<string>, sub: seq<Ref>, p: Place, refs: seq<Ref>)
    requires forall i | 0 <= i < |sub| :: WellNamed(sub[i])
    ensures NoneOwed(KeyLines(Landing(lines, sub, p)), refs)
  {
    var rs := Landing(lines, sub, p);
    forall i | 0 <= i < |rs|
      ensures Live(rs[i]) && WellNamed(rs[i])
    {
      assert rs[i] in sub && Lands(lines, rs[i], p);
    }
    KeyLinesNoneOwed(rs, refs);
  }

  lemma HeadNoneOwed(lines: seq<string>, l: nat, refs: seq<Ref>)
    requires l < |lines| && Orderly(refs) && AllOneLine(lines)
    ensures NoneOwed(LineHead(lines, l, refs), refs)
  {
    if Rebuilds(lines, l, refs) {
      RebuildBinds(lines, l, refs);
    }
  }

  lemma LineNoneOwed(lines: seq<string>, l: nat, refs: seq<Ref>)
    requires l < |lines| && Orderly(refs) && AllOneLine(lines)
    ensures NoneOwed(LineOut(lines, l, refs), refs)
  {
    HeadNoneOwed(lines, l, refs);
    LandingNoneOwed(lines, refs, AfterLine(l), refs);
    NoneOwedAppend(LineHead(lines, l, refs), KeyLines(Landing(lines, refs, AfterLine(l))), refs);
  }

  lemma TopNoneOwed(lines: seq<string>, refs: seq<Ref>)
    requires Orderly(refs)
    ensures NoneOwed(Body(lines, 0, refs), refs)
  {
    LandingNoneOwed(lines, refs, AtTop, refs);
  }

  lemma {:induction false} BodyNoneOwed(lines: seq<string>, l: nat, refs: seq<Ref>)
    requires l <= |lines| && Orderly(refs) && AllOneLine(lines)
    ensures NoneOwed(Body(lines, l, refs), refs)
  {
    hide *;
    if l == 0 {
      TopNoneOwed(lines, refs);
    } else {
      BodyNoneOwed(lines, l - 1, refs);
      LineNoneOwed(lines, l - 1, refs);
      BodyStep(lines, l - 1, refs);
      NoneOwedAppend(Body(lines, l - 1, refs), LineOut(lines, l - 1, refs), refs);
    }
  }

  lemma NewSectionNoneOwed(lines: seq<string>, refs: seq<Ref>, d: nat)
    requires Orderly(refs) && d < |refs| && Opens(lines, refs, d)
    ensures NoneOwed(NewSection(lines, refs, d), refs)
  {
    WellNamedOf(refs, refs[d]);
    NewHeaderParses(refs[d].sec);
    LiveNotGone(refs, refs[d]);
    var header := "[" + refs[d].sec + "]";
    assert NoneOwed([header], refs);
    LandingNoneOwed(lines, refs[d..], InNew(refs[d].sec), refs);
    NoneOwedAppend([header], KeyLines(Landing(lines, refs[d..], InNew(refs[d].sec))), refs);
  }

  lemma SeparatorNoneOwed(acc: seq<string>, refs: seq<Ref>)
    ensures NoneOwed(Separator(acc), refs)
  {
    assert ParseLine("").Inert?;
  }

  lemma {:induction false} NewSectionsNoneOwed(lines: seq<string>, refs: seq<Ref>, d: nat, acc: seq<string>)
    requires Orderly(refs) && d <= |refs| && NoneOwed(acc, refs)
    ensures NoneOwed(NewSections(lines, refs, d, acc), refs)
    decreases |refs| - d
  {
    hide *;
    NewSectionsUnfold(lines, refs, d, acc);
    if d < |refs| {
      if Opens(lines, refs, d) {
        NewSectionNoneOwed(lines, refs, d);
        SeparatorNoneOwed(acc, refs);
        NoneOwedAppend(acc, Separator(acc), refs);
        NoneOwedAppend(acc + Separator(acc), NewSection(lines, refs, d), refs);
        NewSectionsNoneOwed(lines, refs, d + 1, acc + Separator(acc) + NewSection(lines, refs, d));
      } else {
        NewSectionsNoneOwed(lines, refs, d + 1, acc);
      }
    }
  }

  // ---- the line that binds a name

  // The line that binds a name last is the one the loader keeps.
  lemma {:induction false} LastHitBinds(lines: seq<string>, l: nat, r: Ref)
    requires l <= |lines| && r.KeyRef?
    ensures LastHit(lines, l, r) >= 0 <==> RefName(r) in In(lines, l).binds
    ensures LastHit(lines, l, r) >= 0 ==> In(lines, l).binds[RefName(r)] == lines[LastHit(lines, l, r)]
  {
    hide ParseLine, Loaded, Hits, RefName;
    if l == 0 {
      LoadedNone(lines);
    } else {
      LastHitBinds(lines, l - 1, r);
      InStepOther(lines, l - 1, RefName(r));
      HitsBinds(lines, l - 1, r);
    }
  }

  // ---- lines that a rewrite leaves as they are

  /** Rewriting the line for r changes nothing. */
  predicate Settled(raw: string, r: Ref) {
    Live(r) && ParseLine(raw).Bind? && KeyEnd(raw) <= |raw| && Rebuild(raw, r) == raw
  }

  lemma RebuiltCuts(ws: string, key: string, v: string, com: string)
    ensures var raw := ws + key + " = " + v + com;
            && raw[..|ws| + |key|] == ws + key
            && raw[|ws| + |key| + 3 + |v|..] == com
  {
    var raw := ws + key + " = " + v + com;
    assert raw == (ws + key) + (" = " + v + com);
    assert raw == (ws + key + " = " + v) + com;
  }

  lemma Pieces(ws: string, key: string, v: string, c: string)
    ensures var raw := ws + key + " = " + v + c;
            |raw| == |ws| + |key| + 3 + |v| + |c| && (v == "" && c == "" ==> raw == ws + key + " = ")
  {
  }

  // The parts of a line whose value survives
  lemma WrittenShape(ws: string, key: string, v: string, c: string)
    requires AllSpace(ws) && GoodKeyText(key) && Plain(v) && (v != "" || c == "")
    requires c != "" ==> CommentRun(c)
    requires |ws + key + " = " + v + c| < MAX_LINE
    ensures var raw := ws + key + " = " + v + c;
            && ParseLine(raw).Bind? && KeyEnd(raw) == |ws| + |key|
            && ComOff(raw) == if c == "" then -1 else |ws| + |key| + 3 + |v|
  {
    hide ParseLine, ComOff, KeyEnd, FindComment, CommentRun, GoodKeyText;
    Pieces(ws, key, v, c);
    if v == "" {
      BareLine(ws, key);
    } else {
      RebuiltParses(ws, key, v, c);
    }
  }

  lemma LineSettled(ws: string, key: string, com: string, r: Ref)
    requires Live(r) && Plain(r.value) && (r.value != "" || com == "")
    requires AllSpace(ws) && GoodKeyText(key)
    requires com != "" ==> CommentRun(com)
    requires |ws + key + " = " + r.value + com| < MAX_LINE
    ensures Settled(ws + key + " = " + r.value + com, r)
  {
    hide ParseLine, ComOff, Lower, FindComment, CommentRun, KeyEnd;
    var raw := ws + key + " = " + r.value + com;
    WrittenShape(ws, key, r.value, com);
    RebuiltCuts(ws, key, r.value, com);
    Pieces(ws, key, r.value, com);
    assert CommentOf(raw) == com;
    assert raw[..KeyEnd(raw)] == ws + key;
  }

  lemma KeyLineSettled(r: Ref)
    requires Live(r) && WellNamed(r) && Plain(r.value)
    ensures Settled(KeyLine(r), r)
  {
    hide ParseLine, Rebuild, Plain, KeyEnd;
    assert "" + r.key + " = " + r.value + "" == KeyLine(r);
    LineSettled("", r.key, "", r);
  }

  lemma RebuildSettled(raw: string, r: Ref)
    requires Live(r) && WellNamed(r) && ParseLine(raw).Bind? && KeyEnd(raw) <= |raw|
    requires Plain(r.value) && (r.value != "" || KeptComment(raw, r) == "")
    ensures Settled(Rebuild(raw, r), r)
  {
    KeyLineShape(raw);
    hide ParseLine, CommentOf, Plain, CommentRun, Settled;
    var com := KeptComment(raw, r);
    if KeyEnd(raw) + 3 + |r.value| >= MAX_LINE {
      assert Rebuild(raw, r) == r.key + " = " + r.value + "";
      assert r.key + " = " + r.value + "" == KeyLine(r);
      KeyLineSettled(r);
    } else {
      LineSettled(raw[..Lead(raw)], ParseLine(raw).key, com, r);
    }
  }

  lemma SavedLineSettled(lines: seq<string>, r: Ref)
    requires Live(r) && WellNamed(r) && Survives(lines, r)
    ensures Settled(SavedLine(lines, r), r)
  {
    hide ParseLine, LastHit, KeyEnd, Plain, KeyLine, Rebuild, KeptComment, Settled;
    var h := LastHit(lines, |lines|, r);
    if h < 0 {
      KeyLineSettled(r);
    } else {
      HitSameKey(lines, h, r);
      KeyLineShape(lines[h]);
      RebuildSettled(lines[h], r);
    }
  }

  /** The next save finds on the line written for r the comment that it carries, and
      no other. */
  predicate Again(lines: seq<string>, r: Ref)
    requires r.KeyRef?
  {
    ParseLine(SavedLine(lines, r)).Bind? && KeptComment(SavedLine(lines, r), r) == SavedComment(lines, r)
  }

  // Rewriting line for r changes it unless its comment is c.
  predicate Turns(line: string, r: Ref, c: string) {
    && r.KeyRef? && ParseLine(line).Bind? && KeyEnd(line) <= |line|
    && (Rebuild(line, r) == line <==> KeptComment(line, r) == c)
  }

  lemma AgainAt(ws: string, key: string, com: string, r: Ref)
    requires Live(r) && AllSpace(ws) && GoodKeyText(key) && |ws + key + " = " + r.value + com| < MAX_LINE
    ensures Turns(ws + key + " = " + r.value + com, r, com)
  {
    hide ParseLine, KeyEnd, KeptComment, ValueOf, GoodKeyText;
    var raw := ws + key + " = " + r.value + com;
    RebuiltReads(ws, key, r.value, com);
    RebuiltCuts(ws, key, r.value, com);
    Pieces(ws, key, r.value, com);
    var kept := KeptComment(raw, r);
    assert Rebuild(raw, r) == ws + key + " = " + r.value + kept;
    RebuiltCuts(ws, key, r.value, kept);
  }

  lemma KeyLineAgain(r: Ref)
    requires Live(r) && WellNamed(r)
    ensures Turns(KeyLine(r), r, "")
  {
    hide ParseLine, Rebuild, KeyEnd, Turns;
    assert "" + r.key + " = " + r.value + "" == KeyLine(r);
    AgainAt("", r.key, "", r);
  }

  lemma RebuildAgain(raw: string, r: Ref)
    requires Live(r) && WellNamed(r) && ParseLine(raw).Bind? && KeyEnd(raw) <= |raw|
    ensures Turns(Rebuild(raw, r), r, KeptComment(raw, r))
  {
    KeyLineShape(raw);
    hide ParseLine, CommentOf, CommentRun, Turns;
    var com := KeptComment(raw, r);
    if KeyEnd(raw) + 3 + |r.value| >= MAX_LINE {
      assert Rebuild(raw, r) == r.key + " = " + r.value + "";
      assert r.key + " = " + r.value + "" == KeyLine(r);
      KeyLineAgain(r);
    } else {
      AgainAt(raw[..Lead(raw)], ParseLine(raw).key, com, r);
    }
  }

  // A written line is settled exactly when the next save finds its comment again.
  lemma SettledIsAgain(lines: seq<string>, r: Ref)
    requires Live(r) && WellNamed(r)
    ensures Settled(SavedLine(lines, r), r) <==> Again(lines, r)
  {
    var h := LastHit(lines, |lines|, r);
    if h < 0 {
      hide ParseLine, LastHit, KeyEnd, Rebuild, KeptComment;
      KeyLineAgain(r);
    } else {
      HitSameKey(lines, h, r);
      KeyLineShape(lines[h]);
      hide ParseLine, LastHit, KeyEnd, KeyLine, Rebuild, KeptComment;
      RebuildAgain(lines[h], r);
    }
  }

  /** The comment is found again behind every value that survives the save. */
  lemma SurvivorsComeAgain(lines: seq<string>, r: Ref)
    requires Live(r) && WellNamed(r) && Survives(lines, r)
    ensures Again(lines, r)
  {
    SavedLineSettled(lines, r);
    SettledIsAgain(lines, r);
    hide Settled, Again, Survives;
  }

  // ---- a file in which every reference has its place

  // Every name set is bound, and nothing that was taken out is left.
  predicate Placed(lines: seq<string>, refs: seq<Ref>) {
    && NoneOwed(lines, refs)
    && forall r | r in refs && r.KeyRef? :: r.removed <==> LastHit(lines, |lines|, r) < 0
  }

  lemma SavedIsPlaced(lines: seq<string>, refs: seq<Ref>)
    requires Orderly(refs) && AllOneLine(lines)
    ensures Placed(SurgicalLines(lines, refs), refs)
  {
    var out := SurgicalLines(lines, refs);
    BodyNoneOwed(lines, |lines|, refs);
    NewSectionsNoneOwed(lines, refs, 0, Body(lines, |lines|, refs));
    forall r | r in refs && r.KeyRef?
      ensures r.removed <==> LastHit(out, |out|, r) < 0
    {
      RefPlaced(lines, refs, r);
    }
  }

  lemma RefPlaced(lines: seq<string>, refs: seq<Ref>, r: Ref)
    requires Orderly(refs) && AllOneLine(lines) && r in refs && r.KeyRef?
    ensures var out := SurgicalLines(lines, refs);
            var h := LastHit(out, |out|, r);
            if r.removed then h < 0 else h >= 0 && out[h] == SavedLine(lines, r)
  {
    var out := SurgicalLines(lines, refs);
    LastHitBinds(out, |out|, r);
    assert out[..|out|] == out;
    if r.removed {
      var d :| 0 <= d < |refs| && refs[d] == r;
      assert Gone(refs, RefName(r));
      SavedGone(lines, refs, RefName(r));
    } else {
      SavedSet(lines, refs, r);
    }
  }

  lemma {:induction false} NoneInRemoved(lines: seq<string>, l: nat, refs: seq<Ref>)
    requires l <= |lines| && NoneOwed(lines, refs)
    ensures !InRemoved(lines, l, refs)
  {
    hide *;
    RemovedUnfold(lines, l, refs);
    if l > 0 {
      NoOwedHeader(lines, l - 1, refs);
      NoneInRemoved(lines, l - 1, refs);
    }
  }

  lemma NoOwedHeader(lines: seq<string>, l: nat, refs: seq<Ref>)
    requires l < |lines| && NoneOwed(lines, refs)
    ensures ParseLine(lines[l]).Header? ==> !Owed(refs, ParseLine(lines[l]).sec)
  {
    hide ParseLine, Owed;
    assert !DropsHeader(lines, l, refs);
  }

  lemma PlacedNotTaken(lines: seq<string>, l: nat, refs: seq<Ref>)
    requires l < |lines| && Placed(lines, refs)
    ensures !TakenOut(lines, l, refs)
  {
    forall d | 0 <= d < |refs| && refs[d].KeyRef? && refs[d].removed
      ensures !Hits(lines, l, refs[d])
    {
      assert refs[d] in refs;
      if Hits(lines, l, refs[d]) {
        LastHitCovers(lines, |lines|, refs[d], l);
        assert false;
      }
    }
  }

  lemma PlacedHead(lines: seq<string>, l: nat, refs: seq<Ref>)
    requires l < |lines| && Placed(lines, refs)
    ensures |LineHead(lines, l, refs)| == 1
    ensures !Rebuilds(lines, l, refs) ==> LineHead(lines, l, refs) == [lines[l]]
  {
    NoneInRemoved(lines, l + 1, refs);
    PlacedNotTaken(lines, l, refs);
    assert !DropsHeader(lines, l, refs);
    assert l + 1 < |lines| ==> !DropsHeader(lines, l + 1, refs);
    assert !Dropped(lines, l, refs);
  }

  lemma {:induction false} NothingLands(lines: seq<string>, sub: seq<Ref>, p: Place)
    requires forall i | 0 <= i < |sub| && Live(sub[i]) :: LastHit(lines, |lines|, sub[i]) >= 0
    ensures Landing(lines, sub, p) == []
  {
    if sub != [] {
      if Live(sub[0]) {
        WrittenOrNew(lines, sub[0]);
      }
      NothingLands(lines, sub[1..], p);
    }
  }

  lemma PlacedLands(lines: seq<string>, refs: seq<Ref>, p: Place)
    requires Placed(lines, refs)
    ensures Landing(lines, refs, p) == []
  {
    forall i | 0 <= i < |refs| && Live(refs[i])
      ensures LastHit(lines, |lines|, refs[i]) >= 0
    {
      assert refs[i] in refs;
    }
    NothingLands(lines, refs, p);
  }

  lemma PlacedLineOut(lines: seq<string>, l: nat, refs: seq<Ref>)
    requires l < |lines| && Placed(lines, refs)
    ensures |LineHead(lines, l, refs)| == 1 && LineOut(lines, l, refs) == LineHead(lines, l, refs)
  {
    PlacedHead(lines, l, refs);
    PlacedLands(lines, refs, AfterLine(l));
    hide LineHead, Landing, Placed;
  }

  // Each line of such a file stays one line at its place.
  lemma {:induction false} PlacedBody(lines: seq<string>, l: nat, refs: seq<Ref>)
    requires l <= |lines| && Placed(lines, refs)
    ensures |Body(lines, l, refs)| == l
    ensures forall i | 0 <= i < l :: LineHead(lines, i, refs) == [Body(lines, l, refs)[i]]
  {
    hide *;
    if l == 0 {
      PlacedTop(lines, refs);
    } else {
      PlacedBody(lines, l - 1, refs);
      PlacedLineOut(lines, l - 1, refs);
      BodyStep(lines, l - 1, refs);
    }
  }

  lemma PlacedTop(lines: seq<string>, refs: seq<Ref>)
    requires Placed(lines, refs)
    ensures Body(lines, 0, refs) == []
  {
    PlacedLands(lines, refs, AtTop);
  }

  lemma {:induction false} PlacedNewSections(lines: seq<string>, refs: seq<Ref>, d: nat, acc: seq<string>)
    requires d <= |refs| && Placed(lines, refs)
    ensures NewSections(lines, refs, d, acc) == acc
    decreases |refs| - d
  {
    if d < |refs| {
      if IsNew(lines, refs[d]) {
        assert refs[d] in refs;
        WrittenOrNew(lines, refs[d]);
        assert false;
      }
      PlacedNewSections(lines, refs, d + 1, acc);
    }
  }

  // Saving onto such a file changes the lines that are not settled, and no other.
  lemma PlacedSave(lines: seq<string>, refs: seq<Ref>)
    requires Orderly(refs) && AllOneLine(lines) && Placed(lines, refs)
    ensures SurgicalLines(lines, refs) == lines <==>
              forall r | r in refs && Live(r) :: Settled(lines[LastHit(lines, |lines|, r)], r)
  {
    hide Body, NewSections, LineHead, Settled, LastHit, Orderly;
    var out := SurgicalLines(lines, refs);
    PlacedBody(lines, |lines|, refs);
    PlacedNewSections(lines, refs, 0, Body(lines, |lines|, refs));
    if out == lines {
      forall r | r in refs && Live(r)
        ensures Settled(lines[LastHit(lines, |lines|, r)], r)
      {
        var h := LastHit(lines, |lines|, r);
        HeadOfSet(lines, h, refs, r);
        assert LineHead(lines, h, refs) == [out[h]];
      }
    }
    if forall r | r in refs && Live(r) :: Settled(lines[LastHit(lines, |lines|, r)], r) {
      forall i | 0 <= i < |lines|
        ensures out[i] == lines[i]
      {
        assert LineHead(lines, i, refs) == [out[i]];
        PlacedHead(lines, i, refs);
        if Rebuilds(lines, i, refs) {
          RepIsLive(lines, i, refs);
          HeadOfSet(lines, i, refs, refs[Rep(lines, i, refs)]);
        }
      }
    }
  }

  lemma HeadOfSet(lines: seq<string>, l: nat, refs: seq<Ref>, r: Ref)
    requires l < |lines| && Orderly(refs) && AllOneLine(lines)
    requires r in refs && Live(r) && LastHit(lines, |lines|, r) == l
    ensures LineHead(lines, l, refs) == [lines[l]] <==> Settled(lines[l], r)
  {
    SetRebuilt(lines, l, refs, r);
    RebuildsKeyLine(lines, l, refs);
  }

  /** Save is stable: saving the same dirty list onto its own output changes no byte
      of it, if and only if the save finds each comment it carried over again. */
  lemma SaveIsStable(text: string, refs: seq<Ref>)
    requires Orderly(refs)
    ensures SurgicalText(SurgicalText(text, refs), refs) == SurgicalText(text, refs) <==>
              forall r | r in refs && Live(r) :: Again(Lines(text), r)
  {
    hide Orderly, SurgicalLines, Again, Settled, LastHit, SavedLine;
    var lines := Lines(text);
    LinesAreLines(text);
    OrderlyWritable(refs);
    SurgicalOneLine(lines, refs);
    var out := SurgicalLines(lines, refs);
    SurgicalOneLine(out, refs);
    SavedIsPlaced(lines, refs);
    PlacedSave(out, refs);
    forall r | r in refs && Live(r)
      ensures LastHit(out, |out|, r) >= 0
      ensures Settled(out[LastHit(out, |out|, r)], r) <==> Again(lines, r)
    {
      RefPlaced(lines, refs, r);
      WellNamedOf(refs, r);
      SettledIsAgain(lines, r);
    }
  }
}
