/** From the store to the file: the dirty list of a store is orderly, and
    saving it makes the file mean what the store says. */
module ConfigCommit {
  import opened Basics
  import opened CText
  import opened ConfigLines
  import opened ConfigValues
  import opened ConfigMeaning
  import opened ConfigStore
  import opened ConfigStoreFacts
  import opened ConfigStoreInv
  import opened ConfigGetters
  import opened ConfigSave
  import opened ConfigSaveMeaning
  import opened ConfigBudget

  // ---- what is collected

  predicate IsEntryRef(r: Ref, s: Section, j: nat)
    requires j < |s.entries|
  {
    s.entries[j].dirty && r == KeyRef(s.name, s.entries[j].key, s.entries[j].value, s.entries[j].removed)
  }

  lemma {:induction false} EntryRefsHave(sec: string, es: seq<Entry>, r: Ref)
    ensures r in EntryRefs(sec, es) <==>
              exists j | 0 <= j < |es| :: es[j].dirty && r == KeyRef(sec, es[j].key, es[j].value, es[j].removed)
  {
    if es != [] {
      EntryRefsHave(sec, es[1..], r);
      var first := if es[0].dirty then [KeyRef(sec, es[0].key, es[0].value, es[0].removed)] else [];
      if r in EntryRefs(sec, es[1..]) {
        var j :| 0 <= j < |es[1..]| && es[1..][j].dirty
                 && r == KeyRef(sec, es[1..][j].key, es[1..][j].value, es[1..][j].removed);
        assert es[j + 1] == es[1..][j];
      }
      if j :| 0 <= j < |es| && es[j].dirty && r == KeyRef(sec, es[j].key, es[j].value, es[j].removed) {
        if j > 0 {
          assert es[1..][j - 1] == es[j];
        }
      }
      assert r in EntryRefs(sec, es) <==> r in first || r in EntryRefs(sec, es[1..]);
    }
  }

  lemma SectionRefsHave(s: Section, r: Ref)
    ensures r in SectionRefs(s) <==>
              (s.removed && s.dirty && r == SectionRef(s.name)) || exists j | 0 <= j < |s.entries| :: IsEntryRef(r, s, j)
  {
    EntryRefsHave(s.name, s.entries, r);
    if j :| 0 <= j < |s.entries| && IsEntryRef(r, s, j) {
      assert s.entries[j].dirty;
    }
    if r in EntryRefs(s.name, s.entries) {
      var j :| 0 <= j < |s.entries| && s.entries[j].dirty
               && r == KeyRef(s.name, s.entries[j].key, s.entries[j].value, s.entries[j].removed);
      assert IsEntryRef(r, s, j);
    }
  }

  lemma {:induction false} FlatRefsHave(secs: seq<Section>, r: Ref)
    ensures r in FlatRefs(secs) <==> exists i | 0 <= i < |secs| :: r in SectionRefs(secs[i])
  {
    if secs != [] {
      FlatRefsHave(secs[1..], r);
      if r in FlatRefs(secs[1..]) {
        var i :| 0 <= i < |secs[1..]| && r in SectionRefs(secs[1..][i]);
        assert secs[i + 1] == secs[1..][i];
      }
      if i :| 0 <= i < |secs| && r in SectionRefs(secs[i]) {
        if i > 0 {
          assert secs[1..][i - 1] == secs[i];
        }
      }
    }
  }

  lemma CollectHas(secs: seq<Section>, r: Ref)
    ensures r in CollectDirty(secs) <==> exists i | 0 <= i < |secs| :: r in SectionRefs(secs[i])
  {
    hide FlatRefs, SectionRefs;
    var flat, refs := FlatRefs(secs), CollectDirty(secs);
    FlatRefsHave(secs, r);
    if r in flat {
      var k :| 0 <= k < |flat| && flat[k] == r;
      assert refs[|flat| - 1 - k] == r;
    }
    if r in refs {
      var k :| 0 <= k < |refs| && refs[k] == r;
      assert flat[|flat| - 1 - k] == r;
    }
  }

  /** A collected key is what its name is bound to. */
  lemma CollectedKey(secs: seq<Section>, r: Ref)
    requires Inv(secs) && r in CollectDirty(secs) && r.KeyRef?
    ensures EntryOf(secs, r.sec, r.key).Some?
    ensures var e := EntryOf(secs, r.sec, r.key).value;
            e.dirty && e.value == r.value && e.removed == r.removed && EntryOk(e)
    ensures |r.sec| < MAX_SECN && |r.key| < MAX_KEY && |r.value| < MAX_VAL
  {
    CollectHas(secs, r);
    var i :| 0 <= i < |secs| && r in SectionRefs(secs[i]);
    SectionRefsHave(secs[i], r);
    var j :| 0 <= j < |secs[i].entries| && IsEntryRef(r, secs[i], j);
    EntryReached(secs, i, j);
    assert SectionOk(secs[i]);
    assert EntryOk(secs[i].entries[j]);
  }

  lemma CollectedSection(secs: seq<Section>, r: Ref)
    requires Inv(secs) && r in CollectDirty(secs) && r.SectionRef?
    ensures OwesHeader(secs, r.sec) && |r.sec| < MAX_SECN
  {
    CollectHas(secs, r);
    var i :| 0 <= i < |secs| && r in SectionRefs(secs[i]);
    SectionRefsHave(secs[i], r);
    SectionReached(secs, i);
    assert SectionOk(secs[i]);
  }

  lemma CollectsKey(secs: seq<Section>, s: string, k: string)
    requires Inv(secs) && EntryOf(secs, s, k).Some? && EntryOf(secs, s, k).value.dirty
    ensures var e := EntryOf(secs, s, k).value;
            exists r :: r in CollectDirty(secs) && r.KeyRef? && RefName(r) == (Lower(s), Lower(k))
                        && r.value == e.value && r.removed == e.removed
  {
    var i := FindSection(secs, s);
    var j := FindEntry(secs[i].entries, k);
    var e := secs[i].entries[j];
    var r := KeyRef(secs[i].name, e.key, e.value, e.removed);
    assert IsEntryRef(r, secs[i], j);
    SectionRefsHave(secs[i], r);
    CollectHas(secs, r);
  }

  lemma CollectsSection(secs: seq<Section>, s: string)
    requires OwesHeader(secs, s)
    ensures exists r :: r in CollectDirty(secs) && r.SectionRef? && Lower(r.sec) == Lower(s)
  {
    var i := FindSection(secs, s);
    var r := SectionRef(secs[i].name);
    SectionRefsHave(secs[i], r);
    CollectHas(secs, r);
  }

  // ---- the list is orderly

  // Whatever is to be written has a canonical name and one line of value; a removed
  // section has a name.
  predicate Clean(secs: seq<Section>) {
    forall i | 0 <= i < |secs| :: CleanSection(secs[i])
  }

  predicate CleanSection(s: Section) {
    && (s.removed && s.dirty ==> s.name != "")
    && forall j | 0 <= j < |s.entries| :: CleanEntry(s.name, s.entries[j])
  }

  predicate CleanEntry(name: string, e: Entry) {
    e.dirty && !e.removed ==> GoodSection(name) && GoodKey(e.key) && OneLine(e.value)
  }

  lemma ApartConcat(a: seq<Ref>, b: seq<Ref>)
    requires Apart(a) && Apart(b)
    requires forall x, y | x in a && y in b :: Compatible(x, y) && Compatible(y, x)
    ensures Apart(a + b)
  {
    var c := a + b;
    forall i, j | 0 <= i < |c| && 0 <= j < |c| && i != j
      ensures Compatible(c[i], c[j])
    {
      if i < |a| && j < |a| {
        assert Compatible(a[i], a[j]);
      } else if i >= |a| && j >= |a| {
        assert Compatible(b[i - |a|], b[j - |a|]);
      } else if i < |a| {
        assert c[i] in a && c[j] in b;
      } else {
        assert c[i] in b && c[j] in a;
      }
    }
  }

  lemma ApartReverse(refs: seq<Ref>)
    requires Apart(refs)
    ensures Apart(Reverse(refs))
  {
    var r := Reverse(refs);
    forall i, j | 0 <= i < |r| && 0 <= j < |r| && i != j
      ensures Compatible(r[i], r[j])
    {
      assert Compatible(refs[|refs| - 1 - i], refs[|refs| - 1 - j]);
    }
  }

  lemma DistinctCompatible(sec: string, a: Entry, b: Entry)
    requires !EqNoCase(a.key, b.key)
    ensures var x, y := KeyRef(sec, a.key, a.value, a.removed), KeyRef(sec, b.key, b.value, b.removed);
            Compatible(x, y) && Compatible(y, x)
  {
  }

  lemma {:induction false} EntryRefsApart(sec: string, es: seq<Entry>)
    requires KeysDistinct(es)
    ensures Apart(EntryRefs(sec, es))
  {
    if es != [] {
      EntryRefsApart(sec, es[1..]);
      if es[0].dirty {
        var x := KeyRef(sec, es[0].key, es[0].value, es[0].removed);
        forall y | y in EntryRefs(sec, es[1..])
          ensures Compatible(x, y) && Compatible(y, x)
        {
          EntryRefsHave(sec, es[1..], y);
          var j :| 0 <= j < |es[1..]| && es[1..][j].dirty
                   && y == KeyRef(sec, es[1..][j].key, es[1..][j].value, es[1..][j].removed);
          assert es[1..][j] == es[j + 1];
          DistinctCompatible(sec, es[0], es[j + 1]);
        }
        assert Apart([x]);
        ApartConcat([x], EntryRefs(sec, es[1..]));
      } else {
        assert EntryRefs(sec, es) == EntryRefs(sec, es[1..]);
      }
    }
  }

  lemma SectionRefsApart(s: Section)
    requires SectionOk(s)
    ensures Apart(SectionRefs(s))
  {
    EntryRefsApart(s.name, s.entries);
    if s.removed && s.dirty {
      var x := SectionRef(s.name);
      forall y | y in EntryRefs(s.name, s.entries)
        ensures Compatible(x, y) && Compatible(y, x)
      {
        EntryRefsHave(s.name, s.entries, y);
        var j :| 0 <= j < |s.entries| && s.entries[j].dirty
                 && y == KeyRef(s.name, s.entries[j].key, s.entries[j].value, s.entries[j].removed);
        assert EntryOk(s.entries[j]) && !Visible(s.entries[j]);
      }
      assert Apart([x]);
      ApartConcat([x], EntryRefs(s.name, s.entries));
    } else {
      assert SectionRefs(s) == EntryRefs(s.name, s.entries);
    }
  }

  lemma SectionRefsSec(s: Section, r: Ref)
    requires r in SectionRefs(s)
    ensures r.sec == s.name
  {
    SectionRefsHave(s, r);
    if !(s.removed && s.dirty && r == SectionRef(s.name)) {
      var j :| 0 <= j < |s.entries| && IsEntryRef(r, s, j);
    }
  }

  lemma {:induction false} FlatRefsApart(secs: seq<Section>)
    requires Inv(secs)
    ensures Apart(FlatRefs(secs))
  {
    if secs != [] {
      var rest := secs[1..];
      assert Inv(rest) by {
        assert forall i | 0 <= i < |rest| :: rest[i] == secs[i + 1];
      }
      FlatRefsApart(rest);
      assert SectionOk(secs[0]);
      SectionRefsApart(secs[0]);
      forall x, y | x in SectionRefs(secs[0]) && y in FlatRefs(rest)
        ensures Compatible(x, y) && Compatible(y, x)
      {
        FlatRefsHave(rest, y);
        var i :| 0 <= i < |rest| && y in SectionRefs(rest[i]);
        SectionRefsSec(secs[0], x);
        SectionRefsSec(rest[i], y);
        assert rest[i] == secs[i + 1];
      }
      ApartConcat(SectionRefs(secs[0]), FlatRefs(rest));
    }
  }

  lemma CollectNamed(secs: seq<Section>, r: Ref)
    requires Inv(secs) && Clean(secs) && r in CollectDirty(secs)
    ensures WellNamed(r)
  {
    CollectHas(secs, r);
    var i :| 0 <= i < |secs| && r in SectionRefs(secs[i]);
    SectionRefsHave(secs[i], r);
    assert CleanSection(secs[i]) && SectionOk(secs[i]);
    if r.KeyRef? {
      var j :| 0 <= j < |secs[i].entries| && IsEntryRef(r, secs[i], j);
      assert CleanEntry(secs[i].name, secs[i].entries[j]) && EntryOk(secs[i].entries[j]);
    }
  }

  /** collect_dirty never hands the save a name that is both set and taken out, set in
      a removed section, or set twice, whatever the names and values are. */
  lemma CollectApart(secs: seq<Section>)
    requires Inv(secs)
    ensures Apart(CollectDirty(secs))
  {
    FlatRefsApart(secs);
    ApartReverse(FlatRefs(secs));
  }

  /** ... and each reference is well named and in its buffers. */
  lemma CollectOrderly(secs: seq<Section>)
    requires Inv(secs) && Clean(secs)
    ensures Orderly(CollectDirty(secs)) && AllFit(CollectDirty(secs)) && AllWritable(CollectDirty(secs))
  {
    var refs := CollectDirty(secs);
    CollectApart(secs);
    forall i | 0 <= i < |refs|
      ensures WellNamed(refs[i]) && Fits(refs[i])
    {
      assert refs[i] in refs;
      CollectNamed(secs, refs[i]);
      if refs[i].KeyRef? {
        CollectedKey(secs, refs[i]);
      } else {
        CollectedSection(secs, refs[i]);
      }
    }
    OrderlyWritable(refs);
  }

  // ---- what a save commits

  // What the file says about one name
  function MeaningAt(text: string, n: Name): Option<string> {
    if n in Meaning(text) then Some(Meaning(text)[n]) else None
  }

  lemma NotCollectedUntouched(secs: seq<Section>, s: string, k: string)
    requires Inv(secs) && !LookDirty(secs, s, k) && !OwesHeader(secs, s)
    ensures Untouched(CollectDirty(secs), (Lower(s), Lower(k)))
  {
    var refs, n := CollectDirty(secs), (Lower(s), Lower(k));
    forall d | 0 <= d < |refs|
      ensures refs[d].SectionRef? ==> Lower(refs[d].sec) != n.0
      ensures refs[d].KeyRef? ==> RefName(refs[d]) != n
    {
      var r := refs[d];
      assert r in refs;
      if r.SectionRef? {
        CollectedSection(secs, r);
        if Lower(r.sec) == n.0 {
          SectionFromCase(secs, r.sec, s, 0);
        }
      } else {
        CollectedKey(secs, r);
        if RefName(r) == n {
          SectionFromCase(secs, r.sec, s, 0);
          EntryFromCase(EntriesOf(secs, s), r.key, k, 0);
        }
      }
    }
    forall r | r in refs && Live(r)
      ensures RefName(r) != n
    {
      var d :| 0 <= d < |refs| && refs[d] == r;
    }
  }

  // What a save writes for a name depends on the name and the value alone.
  lemma {:induction false} SameLastHit(lines: seq<string>, n: nat, q: Ref, r: Ref)
    requires n <= |lines| && q.KeyRef? && r.KeyRef? && RefName(q) == RefName(r)
    ensures LastHit(lines, n, q) == LastHit(lines, n, r)
  {
    hide RefName, ParseLine, SecAt;
    if n > 0 {
      SameLastHit(lines, n - 1, q, r);
    }
  }

  lemma SameSaved(lines: seq<string>, q: Ref, r: Ref)
    requires q.KeyRef? && r.KeyRef? && RefName(q) == RefName(r) && q.value == r.value
    ensures SavedValue(lines, q) == SavedValue(lines, r) && (Survives(lines, q) <==> Survives(lines, r))
  {
    SameLastHit(lines, |lines|, q, r);
    hide LastHit, ValueOf, CommentOf, KeyEnd, ParseLine, Plain, RefName;
  }

  /** Saving commits the store. In the saved file every name the store has set
      since the last save reads back from its value, as that value exactly when it
      survives, every name it has unset and every name in a section it has removed
      is gone, and all other names are as before. */
  lemma SaveCommits(secs: seq<Section>, text: string, s: string, k: string)
    requires Inv(secs) && Clean(secs)
    ensures var after := MeaningAt(SurgicalText(text, CollectDirty(secs)), (Lower(s), Lower(k)));
            && (Look(secs, s, k).Bound? && LookDirty(secs, s, k) ==>
                  var r := KeyRef(s, k, Look(secs, s, k).value, false);
                  && after == Some(SavedValue(Lines(text), r))
                  && (after == Some(r.value) <==> Survives(Lines(text), r)))
            && (Look(secs, s, k).TakenOff? && LookDirty(secs, s, k) ==> after == None)
            && (OwesHeader(secs, s) ==> after == None)
            && (!LookDirty(secs, s, k) && !OwesHeader(secs, s) ==> after == MeaningAt(text, (Lower(s), Lower(k))))
  {
    hide *;
    CollectOrderly(secs);
    var refs, n := CollectDirty(secs), (Lower(s), Lower(k));
    SaveMeaning(text, refs);
    var after := SurgicalText(text, refs);
    if LookDirty(secs, s, k) {
      var r := CommitsKey(secs, s, k);
      AppliedTo(text, after, refs, n, r);
      if !r.removed {
        NameOfPair(s, k, r.value);
        SameSaved(Lines(text), KeyRef(s, k, r.value, false), r);
      }
    }
    if OwesHeader(secs, s) {
      CommitsSection(secs, s, k);
      AppliedGone(text, after, refs, n);
    }
    if !LookDirty(secs, s, k) && !OwesHeader(secs, s) {
      NotCollectedUntouched(secs, s, k);
      AppliedNot(text, after, refs, n);
    }
  }

  lemma NameOfPair(s: string, k: string, v: string)
    ensures RefName(KeyRef(s, k, v, false)) == (Lower(s), Lower(k))
  {
  }

  lemma AppliedTo(text: string, after: string, refs: seq<Ref>, n: Name, r: Ref)
    requires AppliedAt(Meaning(text), Meaning(after), Lines(text), refs, n)
    requires r in refs && r.KeyRef? && RefName(r) == n
    ensures r.removed ==> MeaningAt(after, n) == None
    ensures !r.removed ==>
              && MeaningAt(after, n) == Some(SavedValue(Lines(text), r))
              && (MeaningAt(after, n) == Some(r.value) <==> Survives(Lines(text), r))
  {
    hide Meaning, RefName, SavedValue, Survives, Lines;
    if r.removed {
      var d :| 0 <= d < |refs| && refs[d] == r;
      assert Gone(refs, n);
    } else {
      assert SetTo(refs, n, r);
    }
  }

  lemma AppliedGone(text: string, after: string, refs: seq<Ref>, n: Name)
    requires AppliedAt(Meaning(text), Meaning(after), Lines(text), refs, n) && Gone(refs, n)
    ensures MeaningAt(after, n) == None
  {
    hide Meaning, Gone;
  }

  lemma AppliedNot(text: string, after: string, refs: seq<Ref>, n: Name)
    requires AppliedAt(Meaning(text), Meaning(after), Lines(text), refs, n) && Untouched(refs, n)
    ensures MeaningAt(after, n) == MeaningAt(text, n)
  {
    hide Meaning, Untouched;
  }

  // The reference a dirty name leaves in the list
  lemma CommitsKey(secs: seq<Section>, s: string, k: string) returns (r: Ref)
    requires Inv(secs) && LookDirty(secs, s, k)
    ensures r in CollectDirty(secs) && r.KeyRef? && RefName(r) == (Lower(s), Lower(k))
    ensures Look(secs, s, k).Bound? ==> !r.removed && r.value == Look(secs, s, k).value
    ensures Look(secs, s, k).TakenOff? ==> r.removed
  {
    CollectsKey(secs, s, k);
    hide CollectDirty, EntriesOf, FindSection;
    r :| r in CollectDirty(secs) && r.KeyRef? && RefName(r) == (Lower(s), Lower(k))
         && r.value == EntryOf(secs, s, k).value.value && r.removed == EntryOf(secs, s, k).value.removed;
  }

  lemma CommitsSection(secs: seq<Section>, s: string, k: string)
    requires Inv(secs) && OwesHeader(secs, s)
    ensures Gone(CollectDirty(secs), (Lower(s), Lower(k)))
  {
    CollectsSection(secs, s);
    hide CollectDirty;
    var refs := CollectDirty(secs);
    var r :| r in refs && r.SectionRef? && Lower(r.sec) == Lower(s);
    var d :| 0 <= d < |refs| && refs[d] == r;
  }
}
