/** Runs of set, unset and getter calls, with names of any length: which getter calls
    can be told from the rest of a run, and which cannot. */
module ConfigRuns {
  import opened Basics
  import opened CText
  import opened ConfigLines
  import ConfigMeaning
  import opened ConfigStore
  import opened ConfigStoreFacts
  import opened ConfigStoreInv
  import opened ConfigGetters
  import opened ConfigLoader
  import opened ConfigViews

  // ---- has_dirty

  lemma SectionSet(es: seq<Entry>, key: string, value: string)
    ensures var es' := PutEntry(es, key, value, true, false);
            exists j | 0 <= j < |es'| :: es'[j].dirty
  {
    var es' := PutEntry(es, key, value, true, false);
    var j := FindEntry(es, key);
    hide EntryFrom;
    if j < |es| {
      assert es'[j].dirty;
    } else {
      assert es'[0].dirty;
    }
  }

  lemma SetDirty(secs: seq<Section>, op: Op)
    requires op.SetOp?
    ensures HasDirty(Do(secs, op)) <==> op.sec != "" || HasDirty(secs)
  {
    if op.sec != "" {
      var ws, i := WithSection(secs, op.sec), SectionSlot(secs, op.sec);
      SectionSet(ws[i].entries, op.key, op.value);
      hide PutEntry, WithSection, SectionSlot;
      assert SectionDirty(Do(secs, op)[i]);
    }
  }

  lemma UnsetDirty(secs: seq<Section>, op: Op)
    requires op.UnsetOp?
    ensures HasDirty(Do(secs, op)) <==> Unset(secs, op.sec, op.key).1 || HasDirty(secs)
  {
    UnsetFromView(secs, op.sec, op.key, 0);
    if Unset(secs, op.sec, op.key).1 {
      var p: nat :| MarksAt(secs, op.sec, op.key, 0, p, Do(secs, op));
      KeyCase(op.sec, op.sec);
      KeyCase(op.key, op.key);
      NoPartsBefore(secs, op, p, op.sec, op.key);
      hide UnsetFrom, Part, MarksAt, EntryFrom, Do;
      var j := FindEntry(secs[p].entries, op.key);
      assert Do(secs, op)[p].entries[j].dirty;
      assert SectionDirty(Do(secs, op)[p]);
    }
  }

  lemma KeyCase(a: string, b: string)
    requires a == b
    ensures EqNoCase(a, b)
  {
  }

  lemma DefaultDirty(es: seq<Entry>, key: string, value: string)
    ensures var es' := PutEntry(es, key, value, false, true);
            (exists j | 0 <= j < |es'| :: es'[j].dirty) <==> (exists j | 0 <= j < |es| :: es[j].dirty)
  {
    hide EntryFrom, Clip;
    var es' := PutEntry(es, key, value, false, true);
    var i := FindEntry(es, key);
    if j :| 0 <= j < |es| && es[j].dirty {
      assert es'[if i < |es| then j else j + 1].dirty;
    }
    if j :| 0 <= j < |es'| && es'[j].dirty {
      assert es[if i < |es| then j else j - 1].dirty;
    }
  }

  lemma DirtyUpdate(secs: seq<Section>, i: nat, x: Section)
    requires i < |secs| && (SectionDirty(x) <==> SectionDirty(secs[i]))
    ensures HasDirty(secs[i := x]) <==> HasDirty(secs)
  {
    hide SectionDirty;
    var secs' := secs[i := x];
    if j :| 0 <= j < |secs| && SectionDirty(secs[j]) {
      assert SectionDirty(secs'[j]);
    }
    if j :| 0 <= j < |secs'| && SectionDirty(secs'[j]) {
      assert SectionDirty(secs[j]);
    }
  }

  lemma WithSectionDirty(secs: seq<Section>, sec: string)
    ensures HasDirty(WithSection(secs, sec)) <==> HasDirty(secs)
  {
    hide SectionFrom, Clip;
    var ws := WithSection(secs, sec);
    if FindSection(secs, sec) == |secs| {
      if j :| 0 <= j < |secs| && SectionDirty(secs[j]) {
        assert SectionDirty(ws[j + 1]);
      }
      if j :| 0 <= j < |ws| && SectionDirty(ws[j]) {
        assert SectionDirty(secs[j - 1]);
      }
    }
  }

  lemma GetDirty(secs: seq<Section>, op: Op)
    requires op.GetOp?
    ensures HasDirty(Do(secs, op)) <==> HasDirty(secs)
  {
    if Do(secs, op) != secs {
      var ws, i := WithSection(secs, op.sec), SectionSlot(secs, op.sec);
      WithSectionDirty(secs, op.sec);
      DefaultDirty(ws[i].entries, op.key, op.default.value);
      hide PutEntry, WithSection, SectionSlot, GetFrom, HasDirty;
      DirtyUpdate(ws, i, ws[i].(entries := PutEntry(ws[i].entries, op.key, op.default.value, false, true)));
    }
  }

  // ---- what one call shows depends on views alone

  lemma StoredDefault(es: seq<Entry>, key: string, d: string)
    requires AllShort(es)
    ensures var es' := PutEntry(es, key, d, false, true);
            var j := FindEntry(es', key);
            if |key| < MAX_KEY then j < |es'| && es'[j].value == Clip(d, MAX_VAL - 1) else j == |es'|
  {
    hide *;
    var es' := PutEntry(es, key, d, false, true);
    KeyedPut(es, key, d, false, true, key);
    KeyedFirst(es', key);
    if |key| < MAX_KEY {
      KeyCase(key, Clip(key, MAX_KEY - 1));
      StoredValue(Keyed(es, key), key, d);
      assert Keyed(es', key) != [] && Keyed(es', key)[0].value == Clip(d, MAX_VAL - 1);
      assert Keyed(es', key)[0] == es'[FindEntry(es', key)];
    } else {
      LongMissing(es', key, 0);
      FindFrom(es', key);
    }
  }

  lemma FindFrom(es: seq<Entry>, key: string)
    ensures FindEntry(es, key) == EntryFrom(es, key, 0)
  {
  }

  lemma StoredValue(m: seq<Entry>, key: string, d: string)
    ensures NewEntry(key, d, false, true).value == Clip(d, MAX_VAL - 1)
    ensures m != [] ==> Overwrite(m[0], d, false, true).value == Clip(d, MAX_VAL - 1)
  {
  }

  lemma MissIs(secs: seq<Section>, op: Op)
    requires op.GetOp? && op.default.Some? && Get(secs, op.sec, op.key).None?
    ensures var es' := PutEntry(WithSection(secs, op.sec)[SectionSlot(secs, op.sec)].entries, op.key, op.default.value, false, true);
            var j := FindEntry(es', op.key);
            GetStr(secs, op.sec, op.key, op.default).1 == if j < |es'| then Some(es'[j].value) else op.default
  {
    hide Get, PutEntry, WithSection, SectionSlot, EntryFrom;
  }

  // The answer of a getter that stores its default
  lemma MissAnswer(secs: seq<Section>, op: Op)
    requires Fitted(secs) && Misses(secs, op)
    ensures GetStr(secs, op.sec, op.key, op.default).1
         == Some(if |op.key| < MAX_KEY then Clip(op.default.value, MAX_VAL - 1) else op.default.value)
  {
    GetView(secs, op.sec, op.key);
    SlotShort(secs, op.sec);
    hide PutEntry, WithSection, SectionSlot, EntryFrom, GetStr, Get, ViewOf, Fitted;
    MissIs(secs, op);
    StoredDefault(WithSection(secs, op.sec)[SectionSlot(secs, op.sec)].entries, op.key, op.default.value);
  }

  lemma SlotShort(secs: seq<Section>, sec: string)
    requires Fitted(secs)
    ensures AllShort(WithSection(secs, sec)[SectionSlot(secs, sec)].entries)
  {
    hide SectionFrom, Clip;
  }

  lemma SeeSame(a: seq<Section>, b: seq<Section>, op: Op)
    requires Fitted(a) && Fitted(b) && Same(a, b)
    ensures See(a, op) == See(b, op)
  {
    assert ViewOf(a, op.sec, op.key) == ViewOf(b, op.sec, op.key);
    match op
    case SetOp(s, k, v) =>
      SetDirty(a, op);
      SetDirty(b, op);
    case UnsetOp(s, k) =>
      UnsetView(a, op, s, k);
      UnsetView(b, op, s, k);
      UnsetDirty(a, op);
      UnsetDirty(b, op);
    case GetOp(s, k, d) =>
      GetView(a, s, k);
      GetView(b, s, k);
      GetDirty(a, op);
      GetDirty(b, op);
      if Misses(a, op) {
        MissAnswer(a, op);
        MissAnswer(b, op);
      }
  }

  // The view of a name after any call
  function Then(w: View, miss: bool, s: string, k: string, op: Op): View {
    match op
    case SetOp(_, _, _) => AfterSet(w, s, k, op)
    case UnsetOp(_, _) => AfterUnset(w, s, k, op)
    case GetOp(_, _, _) => if miss then AfterMiss(w, s, k, op) else w
  }

  lemma DoView(secs: seq<Section>, op: Op, s: string, k: string)
    requires Fitted(secs)
    ensures Fitted(Do(secs, op))
    ensures ViewOf(Do(secs, op), s, k) == Then(ViewOf(secs, s, k), Misses(secs, op), s, k, op)
  {
    hide ViewOf, AfterSet, AfterUnset, AfterMiss, Do, Fitted;
    match op
    case SetOp(_, _, _) => SetView(secs, op, s, k);
    case UnsetOp(_, _) => UnsetView(secs, op, s, k);
    case GetOp(_, _, _) =>
      if Misses(secs, op) {
        MissView(secs, op, s, k);
      } else {
        HitView(secs, op);
      }
  }

  lemma DoSame(a: seq<Section>, b: seq<Section>, op: Op)
    requires Fitted(a) && Fitted(b) && Same(a, b)
    ensures Same(Do(a, op), Do(b, op))
  {
    hide ViewOf, Do, HasDirty, Fitted, Then;
    assert ViewOf(a, op.sec, op.key) == ViewOf(b, op.sec, op.key);
    forall s, k
      ensures ViewOf(Do(a, op), s, k) == ViewOf(Do(b, op), s, k)
    {
      assert ViewOf(a, s, k) == ViewOf(b, s, k);
      DoView(a, op, s, k);
      DoView(b, op, s, k);
    }
    DirtyShown(a, op);
    DirtyShown(b, op);
    SeeSame(a, b, op);
  }

  lemma DirtyShown(secs: seq<Section>, op: Op)
    ensures See(secs, op).dirty <==> HasDirty(Do(secs, op))
  {
    hide HasDirty, Do;
  }

  // ---- getters that nobody can tell

  /** A getter call that leaves no trace: it has no default to store, finds a value, or
      stores the default where it hides no name that is set. A name that was cut hides
      what is set under the first bytes of it; a section name that was cut puts a new
      section in front of the one of that name. */
  ghost predicate Quiet(secs: seq<Section>, op: Op)
    requires op.GetOp?
  {
    var n, c := Clip(op.sec, MAX_SECN - 1), Clip(op.key, MAX_KEY - 1);
    || op.default.None? || Get(secs, op.sec, op.key).Some?
    || FitsBuffers(op)
    || (!Unset(secs, n, c).1 && (|op.sec| < MAX_SECN || forall k :: !ViewOf(secs, n, k).over))
  }

  lemma FrontBits(secs: seq<Section>, s: string, k: string)
    ensures var w := ViewOf(secs, s, k);
            (w.over ==> w.front) && (w.front ==> w.values != [])
  {
    NamedFirst(secs, s, k);
    hide Named, Keyed, SectionFrom, Lower;
    var own, all := Own(secs, s, k), Named(secs, s, k);
    if all != [] {
      VisiblesHead(all[0], all[1..]);
      assert all == [all[0]] + all[1..];
    }
  }

  lemma ViewCase(secs: seq<Section>, s: string, k: string, s': string, k': string)
    requires EqNoCase(s, s') && EqNoCase(k, k')
    ensures ViewOf(secs, s, k) == ViewOf(secs, s', k')
  {
    NamedCase(secs, s, k, s', k');
    SectionFromCase(secs, s, s', 0);
    KeyedCase(EntriesOf(secs, s), k, k');
    hide Named, Keyed, SectionFrom, Lower;
  }

  lemma QuietSame(secs: seq<Section>, op: Op)
    requires Fitted(secs) && op.GetOp? && Quiet(secs, op)
    ensures Same(secs, Do(secs, op))
  {
    GetDirty(secs, op);
    forall s, k
      ensures ViewOf(secs, s, k) == ViewOf(Do(secs, op), s, k)
    {
      QuietView(secs, op, s, k);
    }
  }

  lemma QuietView(secs: seq<Section>, op: Op, s: string, k: string)
    requires Fitted(secs) && op.GetOp? && Quiet(secs, op)
    ensures ViewOf(Do(secs, op), s, k) == ViewOf(secs, s, k)
  {
    var n, c := Clip(op.sec, MAX_SECN - 1), Clip(op.key, MAX_KEY - 1);
    DoView(secs, op, s, k);
    GetView(secs, op.sec, op.key);
    UnsetView(secs, UnsetOp(n, c), n, c);
    FrontBits(secs, n, c);
    FrontBits(secs, n, k);
    hide ViewOf, Do, Fitted, Unset, Get, Lower;
    if EqNoCase(s, n) {
      KeyCase(k, k);
      ViewCase(secs, s, k, n, k);
      if EqNoCase(k, c) {
        ViewCase(secs, n, k, n, c);
      }
    }
  }

  // ---- runs

  lemma SameSelf(a: seq<Section>, b: seq<Section>, c: seq<Section>)
    requires Same(a, b) && Same(a, c)
    ensures Same(b, c)
  {
    hide ViewOf, HasDirty;
    forall s, k
      ensures ViewOf(b, s, k) == ViewOf(c, s, k)
    {
      assert ViewOf(a, s, k) == ViewOf(b, s, k);
      assert ViewOf(a, s, k) == ViewOf(c, s, k);
    }
  }

  lemma DoFitted(secs: seq<Section>, op: Op)
    requires Fitted(secs)
    ensures Fitted(Do(secs, op))
  {
    DoView(secs, op, "", "");
  }

  // Each call that is left out is a getter, quiet at its time.
  ghost predicate LeavesOut(secs: seq<Section>, ops: seq<Op>, kept: seq<bool>)
    requires |kept| == |ops|
    decreases |ops|
  {
    ops == [] || ((kept[0] || (ops[0].GetOp? && Quiet(secs, ops[0]))) && LeavesOut(Do(secs, ops[0]), ops[1..], kept[1..]))
  }

  lemma KeptHead(ops: seq<Op>, kept: seq<bool>)
    requires |kept| == |ops| && ops != []
    ensures Kept(ops, kept) == (if kept[0] then [ops[0]] else []) + Kept(ops[1..], kept[1..])
    ensures kept[0] ==> Kept(ops, kept) != [] && Kept(ops, kept)[0] == ops[0]
                        && Kept(ops, kept)[1..] == Kept(ops[1..], kept[1..])
                        && All(Kept(ops, kept))[1..] == All(Kept(ops[1..], kept[1..]))
  {
  }

  lemma {:induction false} RunSame(a: seq<Section>, b: seq<Section>, ops: seq<Op>, kept: seq<bool>)
    requires |kept| == |ops| && Fitted(a) && Fitted(b) && Same(a, b) && LeavesOut(a, ops, kept)
    ensures Shown(a, ops, kept) == Shown(b, Kept(ops, kept), All(Kept(ops, kept)))
    decreases |ops|
  {
    hide Same, Fitted, Quiet, Do, See;
    if ops != [] {
      var op := ops[0];
      DoFitted(a, op);
      KeptHead(ops, kept);
      if kept[0] {
        DoFitted(b, op);
        DoSame(a, b, op);
        SeeSame(a, b, op);
        RunSame(Do(a, op), Do(b, op), ops[1..], kept[1..]);
      } else {
        QuietSame(a, op);
        SameSelf(a, Do(a, op), b);
        RunSame(Do(a, op), b, ops[1..], kept[1..]);
        assert Kept(ops, kept) == Kept(ops[1..], kept[1..]);
      }
    }
  }

  lemma SameWithSelf(a: seq<Section>)
    ensures Same(a, a)
  {
    hide ViewOf, HasDirty;
  }

  /** Every store is fitted: the empty one, a loaded one, and whatever calls make of it. */
  lemma StoresAreFitted(text: string, secs: seq<Section>, op: Op)
    ensures Fitted([]) && Fitted(LoadText(text))
    ensures Fitted(secs) ==> Fitted(Do(secs, op))
  {
    EmptyAgrees();
    StoreAgrees(NOTHING, ConfigMeaning.EMPTY, Lines(text));
    hide StoreOf, Lines, ViewOf, Do;
    if Fitted(secs) {
      DoFitted(secs, op);
    }
  }

  /** Getters are invisible. In any run of set, unset and getter calls, with names of
      any length, leaving out getter calls that are quiet at their time changes nothing
      the other calls show: no answer, no `unset` result and no `has_dirty`. */
  lemma GettersAreInvisible(secs: seq<Section>, ops: seq<Op>, kept: seq<bool>)
    requires |kept| == |ops| && Fitted(secs) && LeavesOut(secs, ops, kept)
    ensures Shown(secs, ops, kept) == Shown(secs, Kept(ops, kept), All(Kept(ops, kept)))
  {
    SameWithSelf(secs);
    RunSame(secs, secs, ops, kept);
  }

  // With names that fit, every getter call may be left out.
  lemma {:induction false} ShortLeavesOut(secs: seq<Section>, ops: seq<Op>, kept: seq<bool>)
    requires |kept| == |ops|
    requires forall i | 0 <= i < |ops| && !kept[i] :: ops[i].GetOp? && FitsBuffers(ops[i])
    ensures LeavesOut(secs, ops, kept)
    decreases |ops|
  {
    hide Do, Get, Unset, ViewOf;
    if ops != [] {
      ShortLeavesOut(Do(secs, ops[0]), ops[1..], kept[1..]);
    }
  }

  // ---- getters that somebody can tell

  // Some run of calls shows something else on the two stores.
  ghost predicate Tells(a: seq<Section>, b: seq<Section>) {
    exists ops :: Shown(a, ops, All(ops)) != Shown(b, ops, All(ops))
  }

  lemma {:induction false} KeptAll(ops: seq<Op>)
    ensures Kept(ops, All(ops)) == ops
  {
    if ops != [] {
      assert All(ops)[1..] == All(ops[1..]);
      KeptAll(ops[1..]);
    }
  }

  lemma {:induction false} AllLeavesOut(secs: seq<Section>, ops: seq<Op>)
    ensures LeavesOut(secs, ops, All(ops))
    decreases |ops|
  {
    hide Do, Quiet;
    if ops != [] {
      assert All(ops)[1..] == All(ops[1..]);
      AllLeavesOut(Do(secs, ops[0]), ops[1..]);
    }
  }

  lemma SameNeverTells(a: seq<Section>, b: seq<Section>)
    requires Fitted(a) && Fitted(b) && Same(a, b)
    ensures !Tells(a, b)
  {
    forall ops
      ensures Shown(a, ops, All(ops)) == Shown(b, ops, All(ops))
    {
      AllLeavesOut(a, ops);
      KeptAll(ops);
      RunSame(a, b, ops, All(ops));
    }
  }

  lemma ShownFirst(secs: seq<Section>, ops: seq<Op>)
    requires ops != []
    ensures Shown(secs, ops, All(ops)) == [See(secs, ops[0])] + Shown(Do(secs, ops[0]), ops[1..], All(ops[1..]))
  {
    hide See, Do;
    assert All(ops)[1..] == All(ops[1..]);
  }

  lemma UnsetTells(a: seq<Section>, b: seq<Section>, s: string, k: string)
    requires Unset(a, s, k).1 != Unset(b, s, k).1
    ensures Tells(a, b)
  {
    var op := UnsetOp(s, k);
    var ops := [op];
    ShownFirst(a, ops);
    ShownFirst(b, ops);
    hide Shown, Unset, HasDirty, Do;
    assert Shown(a, ops, All(ops))[0] == See(a, op);
    assert Shown(b, ops, All(ops))[0] == See(b, op);
  }

  /** A getter with a key that does not fit, and a default: some later run of calls can
      tell that it was called if and only if the name made of the key's first 63 bytes
      could be unset before. */
  lemma LongKeyGetter(secs: seq<Section>, sec: string, key: string, default: string)
    requires Fitted(secs) && |sec| < MAX_SECN && |key| >= MAX_KEY
    ensures Tells(GetStr(secs, sec, key, Some(default)).0, secs) <==> Unset(secs, sec, Clip(key, MAX_KEY - 1)).1
  {
    var op := GetOp(sec, key, Some(default));
    var c := Clip(key, MAX_KEY - 1);
    DoFitted(secs, op);
    if Unset(secs, sec, c).1 {
      LongKeyHides(secs, op);
      UnsetTells(Do(secs, op), secs, sec, c);
    } else {
      QuietSame(secs, op);
      SameWithSelf(secs);
      SameSelf(secs, Do(secs, op), secs);
      SameNeverTells(Do(secs, op), secs);
    }
  }

  // A name that does not fit is never found, and hides the name it is cut to.
  lemma LongKeyHides(secs: seq<Section>, op: Op)
    requires Fitted(secs) && op.GetOp? && op.default.Some? && !FitsBuffers(op)
    ensures !Unset(Do(secs, op), Clip(op.sec, MAX_SECN - 1), Clip(op.key, MAX_KEY - 1)).1
  {
    var n, c := Clip(op.sec, MAX_SECN - 1), Clip(op.key, MAX_KEY - 1);
    LongMisses(secs, op);
    DoView(secs, op, n, c);
    UnsetView(Do(secs, op), UnsetOp(n, c), n, c);
    hide Do, Unset, ViewOf, Lower, Fitted;
    KeyCase(n, n);
    KeyCase(c, c);
  }

  lemma LongMisses(secs: seq<Section>, op: Op)
    requires Fitted(secs) && op.GetOp? && op.default.Some? && !FitsBuffers(op)
    ensures Misses(secs, op)
  {
    if |op.key| >= MAX_KEY {
      LongNeverNamed(secs, op.sec, op.key);
    } else {
      LongSectionNeverNamed(secs, op.sec, op.key);
    }
  }

  lemma {:induction false} LongNeverNamed(secs: seq<Section>, s: string, k: string)
    requires Fitted(secs) && |k| >= MAX_KEY
    ensures ViewOf(secs, s, k).values == [] && Named(secs, s, k) == []
  {
    if secs != [] {
      LongNeverNamed(secs[1..], s, k);
      LongMissing(secs[0].entries, k, 0);
      KeyedFirst(secs[0].entries, k);
    }
  }

  lemma {:induction false} LongSectionNeverNamed(secs: seq<Section>, s: string, k: string)
    requires Fitted(secs) && |s| >= MAX_SECN
    ensures ViewOf(secs, s, k).values == [] && Named(secs, s, k) == []
  {
    if secs != [] {
      LongSectionNeverNamed(secs[1..], s, k);
      assert |Lower(secs[0].name)| != |Lower(s)|;
    }
  }

  // Where names are unique, what can be looked up is overwritten by a set, and it is all
  // there is.
  lemma UniqueView(secs: seq<Section>, s: string, k: string)
    requires Inv(secs)
    ensures var w := ViewOf(secs, s, k);
            && (w.values != [] <==> w.front) && (w.front <==> w.over) && |w.values| <= 1
  {
    var op := UnsetOp(s, k);
    var after := Do(secs, op);
    InvFitted(secs);
    FrontBits(secs, s, k);
    GetView(secs, s, k);
    GetIsLook(secs, s, k);
    UnsetAt(secs, s, k, s, k);
    UnsetOk(secs, s, k);
    UnsetView(secs, op, s, k);
    GetView(after, s, k);
    GetIsLook(after, s, k);
    OwnFirst(secs, s, k);
    hide Unset, ViewOf, Get, EntryOf, Inv, Fitted, Lower;
    KeyCase(s, s);
    KeyCase(k, k);
  }

  lemma OwnFirst(secs: seq<Section>, s: string, k: string)
    ensures ViewOf(secs, s, k).over <==> EntryOf(secs, s, k).Some? && Visible(EntryOf(secs, s, k).value)
  {
    KeyedFirst(EntriesOf(secs, s), k);
    hide Keyed, Named, EntriesOf, EntryFrom;
  }

  lemma GetAfterUnset(secs: seq<Section>, s: string, k: string, v: string)
    requires Fitted(secs) && 0 < |s| < MAX_SECN && |k| < MAX_KEY
    ensures var w := ViewOf(secs, s, k);
            See(Do(Do(secs, SetOp(s, k, v)), UnsetOp(s, k)), GetOp(s, k, None)).answer
            == FirstOf(if w.over && w.values != [] then w.values[1..] else w.values)
  {
    hide *;
    var a := Do(secs, SetOp(s, k, v));
    var b := Do(a, UnsetOp(s, k));
    DoView(secs, SetOp(s, k, v), s, k);
    DoView(a, UnsetOp(s, k), s, k);
    GetView(b, s, k);
    AnswerIs(b, s, k);
    ThenUnset(ViewOf(secs, s, k), Misses(secs, SetOp(s, k, v)), Misses(a, UnsetOp(s, k)), s, k, v);
  }

  lemma AnswerIs(secs: seq<Section>, s: string, k: string)
    ensures See(secs, GetOp(s, k, None)).answer == Get(secs, s, k)
  {
    hide Get, HasDirty;
  }

  // A view after a set and an unset of its name
  lemma ThenUnset(w: View, m: bool, m': bool, s: string, k: string, v: string)
    requires 0 < |s| < MAX_SECN && |k| < MAX_KEY
    ensures Then(Then(w, m, s, k, SetOp(s, k, v)), m', s, k, UnsetOp(s, k)).values
         == if w.over && w.values != [] then w.values[1..] else w.values
  {
  }

  lemma ThirdTells(a: seq<Section>, b: seq<Section>, x: Op, y: Op, z: Op)
    requires See(Do(Do(a, x), y), z) != See(Do(Do(b, x), y), z)
    ensures Tells(a, b)
  {
    hide See, Do, Shown;
    var ops := [x, y, z];
    Third(a, x, y, z);
    Third(b, x, y, z);
    assert Shown(a, ops, All(ops)) != Shown(b, ops, All(ops));
  }

  lemma Third(a: seq<Section>, x: Op, y: Op, z: Op)
    ensures var ops := [x, y, z];
            |Shown(a, ops, All(ops))| >= 3 && Shown(a, ops, All(ops))[2] == See(Do(Do(a, x), y), z)
  {
    hide See, Do, Shown;
    assert [x, y, z][1..] == [y, z] && [y, z][1..] == [z];
    ShownFirst(a, [x, y, z]);
    ShownFirst(Do(a, x), [y, z]);
    ShownFirst(Do(Do(a, x), y), [z]);
  }

  // The getter puts a section in front, so that a set no longer overwrites.
  lemma LongSectionTells(secs: seq<Section>, op: Op, k: string)
    requires Inv(secs) && op.GetOp? && op.default.Some? && |op.sec| >= MAX_SECN
    requires Get(secs, Clip(op.sec, MAX_SECN - 1), k).Some?
    ensures Tells(Do(secs, op), secs)
  {
    var n, c := Clip(op.sec, MAX_SECN - 1), Clip(op.key, MAX_KEY - 1);
    InvFitted(secs);
    GetView(secs, n, k);
    UniqueView(secs, n, k);
    if EqNoCase(k, c) {
      KeyCase(n, n);
      ViewCase(secs, n, k, n, c);
      UnsetView(secs, UnsetOp(n, c), n, c);
      LongKeyHides(secs, op);
      UnsetTells(Do(secs, op), secs, n, c);
    } else {
      if |k| >= MAX_KEY {
        LongNeverNamed(secs, n, k);
        assert false;
      }
      LongMisses(secs, op);
      DoView(secs, op, n, k);
      KeyCase(n, n);
      hide ViewOf, Do, See, Get, Inv, Lower, Fitted, Tells;
      GetAfterUnset(secs, n, k, "");
      GetAfterUnset(Do(secs, op), n, k, "");
      ThirdTells(Do(secs, op), secs, SetOp(n, k, ""), UnsetOp(n, k), GetOp(n, k, None));
    }
  }

  // The store has a value for the name.
  predicate Answers(secs: seq<Section>, s: string, k: string) {
    Get(secs, s, k).Some?
  }

  ghost predicate SectionAnswers(secs: seq<Section>, s: string) {
    exists k :: Answers(secs, s, k)
  }

  /** A getter with a section name that does not fit, and a default, in a store with
      unique names: some later run of calls can tell that it was called if and only if
      some key can be looked up in the section made of the first 63 bytes. */
  lemma LongSectionGetter(secs: seq<Section>, sec: string, key: string, default: string)
    requires Inv(secs) && |sec| >= MAX_SECN
    ensures Tells(GetStr(secs, sec, key, Some(default)).0, secs) <==>
              SectionAnswers(secs, Clip(sec, MAX_SECN - 1))
  {
    var op := GetOp(sec, key, Some(default));
    var n, c := Clip(sec, MAX_SECN - 1), Clip(key, MAX_KEY - 1);
    InvFitted(secs);
    DoFitted(secs, op);
    if k :| Answers(secs, n, k) {
      LongSectionTells(secs, op, k);
    } else {
      forall k
        ensures !ViewOf(secs, n, k).over && !ViewOf(secs, n, k).front
      {
        GetView(secs, n, k);
        UniqueView(secs, n, k);
        assert !Answers(secs, n, k);
      }
      UnsetView(secs, UnsetOp(n, c), n, c);
      QuietSame(secs, op);
      SameWithSelf(secs);
      SameSelf(secs, Do(secs, op), secs);
      SameNeverTells(Do(secs, op), secs);
    }
  }
}
