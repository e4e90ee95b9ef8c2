/** Runs that also remove sections, where names are unique and fit their buffers: a
    getter can be told exactly when its default made its section. */
module ConfigRemovals {
  import opened Basics
  import opened CText
  import opened ConfigLines
  import opened ConfigStore
  import opened ConfigStoreFacts
  import opened ConfigStoreInv
  import opened ConfigGetters
  import opened ConfigCommit
  import opened ConfigClean

  datatype Call = On(op: Op) | Remove(sec: string)

  function DoCall(secs: seq<Section>, c: Call): seq<Section> {
    match c
    case On(op) => Do(secs, op)
    case Remove(sec) => RemoveSection(secs, sec).0
  }

  function SeeCall(secs: seq<Section>, c: Call): Seen {
    match c
    case On(op) => See(secs, op)
    case Remove(sec) => Seen(None, RemoveSection(secs, sec).1, HasDirty(DoCall(secs, c)))
  }

  predicate CallFits(c: Call) {
    c.On? ==> FitsBuffers(c.op)
  }

  predicate AllCallsFit(cs: seq<Call>) {
    forall i | 0 <= i < |cs| :: CallFits(cs[i])
  }

  // What a run shows for the calls that are kept
  function Run(secs: seq<Section>, cs: seq<Call>, kept: seq<bool>): seq<Seen>
    requires |kept| == |cs|
    decreases |cs|
  {
    if cs == [] then []
    else (if kept[0] then [SeeCall(secs, cs[0])] else []) + Run(DoCall(secs, cs[0]), cs[1..], kept[1..])
  }

  // The run with the other calls left out
  function Rest(cs: seq<Call>, kept: seq<bool>): seq<Call>
    requires |kept| == |cs|
  {
    if cs == [] then [] else (if kept[0] then [cs[0]] else []) + Rest(cs[1..], kept[1..])
  }

  function Every(cs: seq<Call>): (r: seq<bool>)
    ensures |r| == |cs|
  {
    seq(|cs|, _ => true)
  }

  // ---- what a run can tell of a store

  // The section is there, and not removed
  predicate Stands(secs: seq<Section>, s: string) {
    var i := FindSection(secs, s);
    i < |secs| && !secs[i].removed
  }

  predicate There(secs: seq<Section>, s: string) {
    FindSection(secs, s) < |secs|
  }

  // The section "" cannot be removed.
  ghost predicate Like(a: seq<Section>, b: seq<Section>) {
    && (forall s, k :: Look(a, s, k) == Look(b, s, k))
    && (forall s :: OwesHeader(a, s) <==> OwesHeader(b, s))
    && (forall s | s != "" :: Stands(a, s) <==> Stands(b, s))
    && (forall s | s != "" :: There(a, s) <==> There(b, s))
  }

  lemma LikeDirty(a: seq<Section>, b: seq<Section>)
    requires Inv(a) && Inv(b) && Like(a, b)
    ensures HasDirty(a) <==> HasDirty(b)
  {
    HasDirtyIs(a);
    HasDirtyIs(b);
    hide HasDirty, Look, OwesHeader, Inv, Stands, There;
    if s, k :| LookDirty(a, s, k) {
      assert Look(a, s, k) == Look(b, s, k);
      assert LookDirty(b, s, k);
    }
    if s, k :| LookDirty(b, s, k) {
      assert Look(a, s, k) == Look(b, s, k);
      assert LookDirty(a, s, k);
    }
    if s :| OwesHeader(a, s) {
      assert OwesHeader(b, s);
    }
    if s :| OwesHeader(b, s) {
      assert OwesHeader(a, s);
    }
  }

  // ---- what each call does to one section and one name

  lemma SetStands(secs: seq<Section>, sec: string, key: string, value: string, s: string)
    requires 0 < |sec| < MAX_SECN
    ensures Stands(Set(secs, sec, key, value), s) <==> EqNoCase(s, sec) || Stands(secs, s)
    ensures There(Set(secs, sec, key, value), s) <==> EqNoCase(s, sec) || There(secs, s)
  {
    var ws, i := WithSection(secs, sec), SectionSlot(secs, sec);
    WithSectionFinds(secs, sec, s);
    SectionFromCase(ws, sec, ws[i].name, 0);
    var x := ws[i].(removed := false, dirty := false, entries := PutEntry(ws[i].entries, key, value, true, false));
    EntriesOfUpdate(ws, i, x, s);
    if EqNoCase(s, sec) {
      SectionFromCase(ws, s, sec, 0);
    } else {
      CaseShift(ws[i].name, sec, s);
      if FindSection(secs, sec) == |secs| {
        PushedSection(ws[0], secs, s);
      }
    }
  }

  lemma UnsetStands(secs: seq<Section>, sec: string, key: string, s: string)
    requires Inv(secs)
    ensures Stands(Unset(secs, sec, key).0, s) <==> Stands(secs, s)
    ensures There(Unset(secs, sec, key).0, s) <==> There(secs, s)
  {
    UnsetFromIs(secs, sec, key, 0);
    var r := FindSection(secs, sec);
    if Unset(secs, sec, key).1 {
      var j := FindEntry(secs[r].entries, key);
      SectionFromCase(secs, sec, secs[r].name, 0);
      EntriesOfUpdate(secs, r, secs[r].(entries := secs[r].entries[j := MarkRemoved(secs[r].entries[j])]), s);
    }
  }

  // The getter stores its default in a section it has to make.
  predicate Makes(secs: seq<Section>, op: Op) {
    && op.GetOp? && op.default.Some? && op.sec != ""
    && FindSection(secs, op.sec) == |secs|
  }

  lemma {:induction false} NoSectionNoValue(secs: seq<Section>, sec: string, key: string, i: nat)
    requires i <= |secs| && SectionFrom(secs, sec, i) == |secs|
    ensures GetFrom(secs, sec, key, i) == None
    decreases |secs| - i
  {
    if i < |secs| {
      NoSectionNoValue(secs, sec, key, i + 1);
    }
  }

  lemma GetStands(secs: seq<Section>, op: Op, s: string)
    requires op.GetOp? && |op.sec| < MAX_SECN && s != ""
    ensures Stands(Do(secs, op), s) <==> Stands(secs, s) || (Makes(secs, op) && EqNoCase(s, op.sec))
    ensures There(Do(secs, op), s) <==> There(secs, s) || (Makes(secs, op) && EqNoCase(s, op.sec))
  {
    if FindSection(secs, op.sec) == |secs| {
      NoSectionNoValue(secs, op.sec, op.key, 0);
    }
    if Get(secs, op.sec, op.key).None? && op.default.Some? {
      var ws, i := WithSection(secs, op.sec), SectionSlot(secs, op.sec);
      WithSectionFinds(secs, op.sec, s);
      SectionFromCase(ws, op.sec, ws[i].name, 0);
      var x := ws[i].(entries := PutEntry(ws[i].entries, op.key, op.default.value, false, true));
      EntriesOfUpdate(ws, i, x, s);
      MadeStands(secs, op.sec, x, s);
    }
  }

  lemma MadeStands(secs: seq<Section>, sec: string, x: Section, s: string)
    requires |sec| < MAX_SECN && s != ""
    requires var ws, i := WithSection(secs, sec), SectionSlot(secs, sec);
             x.name == ws[i].name && x.removed == ws[i].removed
             && FindSection(ws[i := x], s) == FindSection(ws, s)
    ensures Stands(WithSection(secs, sec)[SectionSlot(secs, sec) := x], s)
            <==> Stands(secs, s) || (sec != "" && FindSection(secs, sec) == |secs| && EqNoCase(s, sec))
    ensures There(WithSection(secs, sec)[SectionSlot(secs, sec) := x], s)
            <==> There(secs, s) || (sec != "" && FindSection(secs, sec) == |secs| && EqNoCase(s, sec))
  {
    var ws, i := WithSection(secs, sec), SectionSlot(secs, sec);
    if FindSection(secs, sec) == |secs| {
      if EqNoCase(s, sec) {
        assert |Lower(s)| == |Lower(sec)|;
        SectionFromIs(ws, s, 0, 0);
      } else {
        PushedSection(ws[0], secs, s);
      }
    }
  }

  lemma RemoveLook(secs: seq<Section>, sec: string, s: string, k: string)
    requires Inv(secs) && sec != ""
    ensures RemoveSection(secs, sec).1 <==> Stands(secs, sec)
    ensures var secs' := RemoveSection(secs, sec).0;
            var hit := EqNoCase(s, sec) && Stands(secs, sec);
            && Look(secs', s, k) == (if hit && Look(secs, s, k).Bound? then TakenOff(true) else Look(secs, s, k))
            && (OwesHeader(secs', s) <==> hit || OwesHeader(secs, s))
            && (Stands(secs', s) <==> !hit && Stands(secs, s))
            && (There(secs', s) <==> There(secs, s))
  {
    var r := FindSection(secs, sec);
    RemoveFromIs(secs, sec, 0);
    if EqNoCase(s, sec) {
      SectionFromCase(secs, s, sec, 0);
    }
    if Stands(secs, sec) {
      var x := secs[r].(removed := true, dirty := true, entries := RemoveEntries(secs[r].entries));
      SectionFromCase(secs, sec, secs[r].name, 0);
      EntriesOfUpdate(secs, r, x, s);
      CaseShift(secs[r].name, sec, s);
      RemoveEntriesAt(secs[r].entries, k, 0);
    }
  }

  // ---- like stores stay alike

  lemma DoCallOk(secs: seq<Section>, c: Call)
    requires Inv(secs) && CallFits(c)
    ensures Inv(DoCall(secs, c))
  {
    match c
    case On(op) => DoOk(secs, op);
    case Remove(sec) => RemoveAt(secs, sec, "", "");
  }

  lemma SetLike(a: seq<Section>, b: seq<Section>, op: Op, s: string, k: string)
    requires Inv(a) && Inv(b) && Like(a, b) && op.SetOp? && FitsBuffers(op)
    ensures Look(Do(a, op), s, k) == Look(Do(b, op), s, k)
    ensures OwesHeader(Do(a, op), s) <==> OwesHeader(Do(b, op), s)
    ensures s != "" ==> (Stands(Do(a, op), s) <==> Stands(Do(b, op), s))
    ensures s != "" ==> (There(Do(a, op), s) <==> There(Do(b, op), s))
  {
    assert Look(a, s, k) == Look(b, s, k) && Look(a, op.sec, op.key) == Look(b, op.sec, op.key);
    if op.sec != "" {
      SetAt(a, op.sec, op.key, op.value, s, k);
      SetAt(b, op.sec, op.key, op.value, s, k);
      SetOwes(a, op.sec, op.key, op.value, s);
      SetOwes(b, op.sec, op.key, op.value, s);
      SetStands(a, op.sec, op.key, op.value, s);
      SetStands(b, op.sec, op.key, op.value, s);
    }
  }

  lemma UnsetLike(a: seq<Section>, b: seq<Section>, op: Op, s: string, k: string)
    requires Inv(a) && Inv(b) && Like(a, b) && op.UnsetOp?
    ensures Look(Do(a, op), s, k) == Look(Do(b, op), s, k)
    ensures OwesHeader(Do(a, op), s) <==> OwesHeader(Do(b, op), s)
    ensures s != "" ==> (Stands(Do(a, op), s) <==> Stands(Do(b, op), s))
    ensures s != "" ==> (There(Do(a, op), s) <==> There(Do(b, op), s))
  {
    assert Look(a, s, k) == Look(b, s, k) && Look(a, op.sec, op.key) == Look(b, op.sec, op.key);
    UnsetAt(a, op.sec, op.key, s, k);
    UnsetAt(b, op.sec, op.key, s, k);
    UnsetOk(a, op.sec, op.key);
    UnsetOk(b, op.sec, op.key);
    UnsetStands(a, op.sec, op.key, s);
    UnsetStands(b, op.sec, op.key, s);
  }

  lemma GetLike(a: seq<Section>, b: seq<Section>, op: Op, s: string, k: string)
    requires Inv(a) && Inv(b) && Like(a, b) && op.GetOp? && FitsBuffers(op)
    ensures Look(Do(a, op), s, k) == Look(Do(b, op), s, k)
    ensures OwesHeader(Do(a, op), s) <==> OwesHeader(Do(b, op), s)
    ensures s != "" ==> (Stands(Do(a, op), s) <==> Stands(Do(b, op), s))
    ensures s != "" ==> (There(Do(a, op), s) <==> There(Do(b, op), s))
  {
    GetterHides(a, op.sec, op.key, op.default);
    GetterHides(b, op.sec, op.key, op.default);
    assert Look(a, s, k) == Look(b, s, k);
    assert Look(a, s, k) == Look(Do(a, op), s, k) && Look(b, s, k) == Look(Do(b, op), s, k);
    if op.sec != "" {
      assert There(a, op.sec) <==> There(b, op.sec);
    }
    if s != "" {
      GetStands(a, op, s);
      GetStands(b, op, s);
    }
  }

  lemma RemoveLike(a: seq<Section>, b: seq<Section>, sec: string, s: string, k: string)
    requires Inv(a) && Inv(b) && Like(a, b)
    ensures var a', b' := RemoveSection(a, sec).0, RemoveSection(b, sec).0;
            && Look(a', s, k) == Look(b', s, k) && (OwesHeader(a', s) <==> OwesHeader(b', s))
            && (s != "" ==> (Stands(a', s) <==> Stands(b', s)) && (There(a', s) <==> There(b', s)))
  {
    assert Look(a, s, k) == Look(b, s, k);
    if sec != "" {
      assert Stands(a, sec) <==> Stands(b, sec);
      RemoveLook(a, sec, s, k);
      RemoveLook(b, sec, s, k);
    }
  }

  lemma DoLikeAt(a: seq<Section>, b: seq<Section>, c: Call, s: string, k: string)
    requires Inv(a) && Inv(b) && Like(a, b) && CallFits(c)
    ensures Look(DoCall(a, c), s, k) == Look(DoCall(b, c), s, k)
    ensures OwesHeader(DoCall(a, c), s) <==> OwesHeader(DoCall(b, c), s)
    ensures s != "" ==> (Stands(DoCall(a, c), s) <==> Stands(DoCall(b, c), s))
    ensures s != "" ==> (There(DoCall(a, c), s) <==> There(DoCall(b, c), s))
  {
    hide Look, OwesHeader, Stands, There, Like, Inv, Do, RemoveSection, FitsBuffers;
    match c
    case Remove(sec) => RemoveLike(a, b, sec, s, k);
    case On(SetOp(_, _, _)) => SetLike(a, b, c.op, s, k);
    case On(UnsetOp(_, _)) => UnsetLike(a, b, c.op, s, k);
    case On(GetOp(_, _, _)) => GetLike(a, b, c.op, s, k);
  }

  lemma DoLike(a: seq<Section>, b: seq<Section>, c: Call)
    requires Inv(a) && Inv(b) && Like(a, b) && CallFits(c)
    ensures Like(DoCall(a, c), DoCall(b, c))
  {
    hide *;
    forall s, k
      ensures Look(DoCall(a, c), s, k) == Look(DoCall(b, c), s, k)
    {
      DoLikeAt(a, b, c, s, k);
    }
    forall s
      ensures OwesHeader(DoCall(a, c), s) <==> OwesHeader(DoCall(b, c), s)
      ensures s != "" ==> (Stands(DoCall(a, c), s) <==> Stands(DoCall(b, c), s))
      ensures s != "" ==> (There(DoCall(a, c), s) <==> There(DoCall(b, c), s))
    {
      DoLikeAt(a, b, c, s, "");
    }
    LikeIs(DoCall(a, c), DoCall(b, c));
  }

  lemma LikeIs(a: seq<Section>, b: seq<Section>)
    requires forall s, k :: Look(a, s, k) == Look(b, s, k)
    requires forall s :: OwesHeader(a, s) <==> OwesHeader(b, s)
    requires forall s | s != "" :: Stands(a, s) <==> Stands(b, s)
    requires forall s | s != "" :: There(a, s) <==> There(b, s)
    ensures Like(a, b)
  {
    hide Look, OwesHeader, Stands, There;
  }

  lemma SeeLike(a: seq<Section>, b: seq<Section>, c: Call)
    requires Inv(a) && Inv(b) && Like(a, b) && CallFits(c)
    ensures SeeCall(a, c) == SeeCall(b, c)
  {
    DoCallOk(a, c);
    DoCallOk(b, c);
    DoLike(a, b, c);
    LikeDirty(DoCall(a, c), DoCall(b, c));
    match c
    case Remove(sec) =>
      if sec != "" {
        RemoveLook(a, sec, "", "");
        RemoveLook(b, sec, "", "");
      }
    case On(op) =>
      assert Look(a, op.sec, op.key) == Look(b, op.sec, op.key);
      match op {
        case SetOp(s, k, v) =>
        case UnsetOp(s, k) =>
          UnsetAt(a, s, k, s, k);
          UnsetAt(b, s, k, s, k);
        case GetOp(s, k, d) =>
          GetterAnswer(a, s, k, d);
          GetterAnswer(b, s, k, d);
      }
  }

  // A getter that does not make its section changes nothing.
  lemma GetterLike(secs: seq<Section>, op: Op)
    requires Inv(secs) && op.GetOp? && FitsBuffers(op) && !Makes(secs, op)
    ensures Like(secs, Do(secs, op))
  {
    GetterHides(secs, op.sec, op.key, op.default);
    hide Look, OwesHeader, Stands, There, Makes;
    forall s | s != ""
      ensures Stands(secs, s) <==> Stands(Do(secs, op), s)
      ensures There(secs, s) <==> There(Do(secs, op), s)
    {
      GetStands(secs, op, s);
    }
  }

  lemma LikeOver(a: seq<Section>, b: seq<Section>, c: seq<Section>)
    requires Like(a, b) && Like(a, c)
    ensures Like(b, c)
  {
    hide Look, OwesHeader, Stands, There;
    forall s, k
      ensures Look(b, s, k) == Look(c, s, k)
    {
      assert Look(a, s, k) == Look(b, s, k) && Look(a, s, k) == Look(c, s, k);
    }
    forall s
      ensures OwesHeader(b, s) <==> OwesHeader(c, s)
      ensures s != "" ==> (Stands(b, s) <==> Stands(c, s)) && (There(b, s) <==> There(c, s))
    {
      assert OwesHeader(a, s) <==> OwesHeader(b, s);
      assert OwesHeader(a, s) <==> OwesHeader(c, s);
    }
  }

  // ---- runs

  // Each call that is left out is a getter that does not make its section.
  predicate LeavesOut(secs: seq<Section>, cs: seq<Call>, kept: seq<bool>)
    requires |kept| == |cs|
    decreases |cs|
  {
    cs == []
    || ((kept[0] || (cs[0].On? && cs[0].op.GetOp? && !Makes(secs, cs[0].op)))
        && LeavesOut(DoCall(secs, cs[0]), cs[1..], kept[1..]))
  }

  lemma RestHead(cs: seq<Call>, kept: seq<bool>)
    requires |kept| == |cs| && cs != []
    ensures Rest(cs, kept) == (if kept[0] then [cs[0]] else []) + Rest(cs[1..], kept[1..])
    ensures kept[0] ==> Rest(cs, kept) != [] && Rest(cs, kept)[0] == cs[0]
                        && Rest(cs, kept)[1..] == Rest(cs[1..], kept[1..])
                        && Every(Rest(cs, kept))[1..] == Every(Rest(cs[1..], kept[1..]))
  {
  }

  lemma {:induction false} RunLike(a: seq<Section>, b: seq<Section>, cs: seq<Call>, kept: seq<bool>)
    requires |kept| == |cs| && AllCallsFit(cs) && Inv(a) && Inv(b) && Like(a, b) && LeavesOut(a, cs, kept)
    ensures Run(a, cs, kept) == Run(b, Rest(cs, kept), Every(Rest(cs, kept)))
    decreases |cs|
  {
    hide Like, Inv, Makes, DoCall, SeeCall, CallFits;
    if cs != [] {
      var c := cs[0];
      assert CallFits(c) && AllCallsFit(cs[1..]);
      DoCallOk(a, c);
      RestHead(cs, kept);
      if kept[0] {
        DoCallOk(b, c);
        DoLike(a, b, c);
        SeeLike(a, b, c);
        RunLike(DoCall(a, c), DoCall(b, c), cs[1..], kept[1..]);
      } else {
        OutLike(a, c);
        LikeOver(a, DoCall(a, c), b);
        RunLike(DoCall(a, c), b, cs[1..], kept[1..]);
        assert Rest(cs, kept) == Rest(cs[1..], kept[1..]);
      }
    }
  }

  lemma OutLike(secs: seq<Section>, c: Call)
    requires Inv(secs) && CallFits(c) && c.On? && c.op.GetOp? && !Makes(secs, c.op)
    ensures Like(secs, DoCall(secs, c))
  {
    GetterLike(secs, c.op);
  }

  lemma LikeSelf(a: seq<Section>)
    ensures Like(a, a)
  {
    hide Look, OwesHeader, Stands, There;
  }

  /** In any run of set, unset, getter and remove_section calls with names that fit,
      leaving out getters that do not make their section changes nothing that the other
      calls show. */
  lemma GettersAmongRemovals(secs: seq<Section>, cs: seq<Call>, kept: seq<bool>)
    requires |kept| == |cs| && AllCallsFit(cs) && Inv(secs) && LeavesOut(secs, cs, kept)
    ensures Run(secs, cs, kept) == Run(secs, Rest(cs, kept), Every(Rest(cs, kept)))
  {
    hide Like, Inv, LeavesOut, AllCallsFit;
    LikeSelf(secs);
    RunLike(secs, secs, cs, kept);
  }

  // ---- one getter

  ghost predicate RunTells(a: seq<Section>, b: seq<Section>) {
    exists cs :: AllCallsFit(cs) && Run(a, cs, Every(cs)) != Run(b, cs, Every(cs))
  }

  lemma {:induction false} KeepsEvery(secs: seq<Section>, cs: seq<Call>)
    ensures LeavesOut(secs, cs, Every(cs)) && Rest(cs, Every(cs)) == cs
    decreases |cs|
  {
    hide DoCall, Makes;
    if cs != [] {
      assert Every(cs)[1..] == Every(cs[1..]);
      KeepsEvery(DoCall(secs, cs[0]), cs[1..]);
    }
  }

  lemma LikeNeverTells(a: seq<Section>, b: seq<Section>)
    requires Inv(a) && Inv(b) && Like(a, b)
    ensures !RunTells(a, b)
  {
    hide Like, Inv, LeavesOut, Rest, Run, AllCallsFit;
    forall cs | AllCallsFit(cs)
      ensures Run(a, cs, Every(cs)) == Run(b, cs, Every(cs))
    {
      KeepsEvery(a, cs);
      RunLike(a, b, cs, Every(cs));
    }
  }

  lemma RemoveTells(a: seq<Section>, b: seq<Section>, sec: string)
    requires RemoveSection(a, sec).1 != RemoveSection(b, sec).1
    ensures RunTells(a, b)
  {
    var cs := [Remove(sec)];
    hide RemoveSection, HasDirty;
    assert cs[1..] == [] && Every(cs) == [true];
    assert Run(a, cs, Every(cs))[0] == SeeCall(a, cs[0]);
    assert Run(b, cs, Every(cs))[0] == SeeCall(b, cs[0]);
    assert AllCallsFit(cs);
  }

  /** A getter with names that fit, where names are unique: some later run of calls, with
      removals, can tell that it was called if and only if it has a default and its
      section was not there. */
  lemma GetterMakesSection(secs: seq<Section>, op: Op)
    requires Inv(secs) && op.GetOp? && FitsBuffers(op)
    ensures RunTells(Do(secs, op), secs) <==> Makes(secs, op)
  {
    DoOk(secs, op);
    if Makes(secs, op) {
      GetStands(secs, op, op.sec);
      RemoveLook(secs, op.sec, "", "");
      RemoveLook(Do(secs, op), op.sec, "", "");
      RemoveTells(Do(secs, op), secs, op.sec);
    } else {
      GetterLike(secs, op);
      LikeSelf(secs);
      LikeOver(secs, Do(secs, op), secs);
      LikeNeverTells(Do(secs, op), secs);
    }
  }
}
