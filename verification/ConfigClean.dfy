/** What the configuration operations keep: the invariant of the store, and that
    whatever it has to save is one line under a canonical name. */
module ConfigClean {
  import opened Basics
  import opened CText
  import opened ConfigLines
  import opened ConfigMeaning
  import opened ConfigStore
  import opened ConfigStoreFacts
  import opened ConfigStoreInv
  import opened ConfigGetters
  import opened ConfigLoader
  import opened ConfigCommit

  // ---- canonical names do not depend on case

  lemma SameCase(a: string, b: string)
    requires EqNoCase(a, b)
    ensures |a| == |b|
    ensures forall i | 0 <= i < |a| :: a[i] == b[i] || (IsLetter(a[i]) && IsLetter(b[i]))
  {
    assert |a| == |Lower(a)| == |b|;
    forall i | 0 <= i < |a|
      ensures a[i] == b[i] || (IsLetter(a[i]) && IsLetter(b[i]))
    {
      assert Lower(a)[i] == ToLower(a[i]) && Lower(b)[i] == ToLower(b[i]);
    }
  }

  predicate IsLetter(c: char) {
    'A' <= c <= 'Z' || 'a' <= c <= 'z'
  }

  lemma OtherByte(a: string, b: string, c: char)
    requires EqNoCase(a, b) && !IsLetter(c)
    ensures c in a <==> c in b
  {
    SameCase(a, b);
    if c in a {
      var i :| 0 <= i < |a| && a[i] == c;
      assert b[i] == c;
    }
    if c in b {
      var i :| 0 <= i < |b| && b[i] == c;
      assert a[i] == c;
    }
  }

  lemma GoodSectionCase(a: string, b: string)
    requires EqNoCase(a, b) && GoodSection(a)
    ensures GoodSection(b)
  {
    SameCase(a, b);
    OtherByte(a, b, ']');
    OtherByte(a, b, '\n');
  }

  lemma GoodKeyCase(a: string, b: string)
    requires EqNoCase(a, b) && GoodKey(a)
    ensures GoodKey(b)
  {
    SameCase(a, b);
    OtherByte(a, b, '=');
    OtherByte(a, b, '\n');
  }

  // ---- set

  predicate AllClean(name: string, es: seq<Entry>) {
    forall j | 0 <= j < |es| :: CleanEntry(name, es[j])
  }

  lemma PutClean(name: string, es: seq<Entry>, key: string, value: string)
    requires AllClean(name, es) && GoodSection(name) && GoodKey(key) && OneLine(value)
    ensures AllClean(name, PutEntry(es, key, value, true, false))
  {
    var i := FindEntry(es, key);
    if i < |es| {
      GoodKeyCase(key, es[i].key);
    }
  }

  lemma UpdateClean(secs: seq<Section>, i: nat, s: Section)
    requires Clean(secs) && i < |secs| && CleanSection(s)
    ensures Clean(secs[i := s])
  {
  }

  lemma SetClean(secs: seq<Section>, sec: string, key: string, value: string)
    requires Clean(secs) && GoodSection(sec) && GoodKey(key) && OneLine(value)
    ensures Clean(Set(secs, sec, key, value))
  {
    if sec != "" {
      var ws, i := WithSection(secs, sec), SectionSlot(secs, sec);
      assert Clean(ws) && EqNoCase(sec, ws[i].name);
      GoodSectionCase(sec, ws[i].name);
      assert CleanSection(ws[i]);
      PutClean(ws[i].name, ws[i].entries, key, value);
      UpdateClean(ws, i, ws[i].(removed := false, dirty := false,
                                entries := PutEntry(ws[i].entries, key, value, true, false)));
    }
  }

  // ---- unset

  lemma UnsetClean(secs: seq<Section>, sec: string, key: string)
    requires Inv(secs) && Clean(secs)
    ensures Clean(Unset(secs, sec, key).0)
  {
    UnsetFromIs(secs, sec, key, 0);
    var r := FindSection(secs, sec);
    if Unset(secs, sec, key).1 {
      var j := FindEntry(secs[r].entries, key);
      assert CleanSection(secs[r]);
      UpdateClean(secs, r, secs[r].(entries := secs[r].entries[j := MarkRemoved(secs[r].entries[j])]));
    }
  }

  // ---- getters

  lemma DefaultClean(name: string, es: seq<Entry>, key: string, value: string)
    requires AllClean(name, es)
    requires FindEntry(es, key) < |es| ==> !Visible(es[FindEntry(es, key)]) && EntryOk(es[FindEntry(es, key)])
    ensures AllClean(name, PutEntry(es, key, value, false, true))
  {
  }

  lemma GetterClean(secs: seq<Section>, sec: string, key: string, default: Option<string>)
    requires Inv(secs) && Clean(secs) && |sec| < MAX_SECN
    ensures Clean(GetStr(secs, sec, key, default).0)
  {
    GetIsLook(secs, sec, key);
    if Get(secs, sec, key).None? && default.Some? {
      var ws, i := WithSection(secs, sec), SectionSlot(secs, sec);
      WithSectionOk(secs, sec);
      WithSectionFinds(secs, sec, sec);
      assert ws[i].entries == EntriesOf(secs, sec);
      assert SectionOk(ws[i]) && CleanSection(ws[i]);
      DefaultClean(ws[i].name, ws[i].entries, key, default.value);
      UpdateClean(ws, i, ws[i].(entries := PutEntry(ws[i].entries, key, default.value, false, true)));
    }
  }

  // ---- remove_section

  function RemoveIn(secs: seq<Section>, r: nat): seq<Section>
    requires r < |secs|
  {
    secs[r := secs[r].(removed := true, dirty := true, entries := RemoveEntries(secs[r].entries))]
  }

  lemma {:induction false} RemoveFromIs(secs: seq<Section>, sec: string, i: nat)
    requires NamesDistinct(secs) && i <= |secs|
    ensures var r := FindSection(secs, sec);
            RemoveFrom(secs, sec, i)
            == if i <= r < |secs| && !secs[r].removed then (RemoveIn(secs, r), true) else (secs, false)
    decreases |secs| - i
  {
    if i < |secs| {
      RemoveFromIs(secs, sec, i + 1);
      if i != FindSection(secs, sec) {
        OtherNames(secs, sec, i);
      }
    }
  }

  function TakenOut(e: Entry): Entry {
    if Visible(e) then MarkRemoved(e) else e
  }

  lemma {:induction false} RemoveEntriesAt(es: seq<Entry>, key: string, i: nat)
    requires i <= |es|
    ensures EntryFrom(RemoveEntries(es), key, i) == EntryFrom(es, key, i)
    decreases |es| - i
  {
    if i < |es| {
      RemoveEntriesAt(es, key, i + 1);
    }
  }

  lemma RemovedSectionOk(s: Section)
    requires SectionOk(s)
    ensures SectionOk(s.(removed := true, dirty := true, entries := RemoveEntries(s.entries)))
  {
    var es' := RemoveEntries(s.entries);
    assert forall j | 0 <= j < |es'| :: es'[j].key == s.entries[j].key;
  }

  /** rss_config_remove_section takes out every name of its section and owes the
      file the header; no other name changes. */
  lemma RemoveAt(secs: seq<Section>, sec: string, s: string, k: string)
    requires Inv(secs)
    ensures var secs' := RemoveSection(secs, sec).0;
            && Inv(secs')
            && (sec != "" && EqNoCase(s, sec) ==> !Look(secs', s, k).Bound?)
            && (sec == "" || !EqNoCase(s, sec) ==>
                  EntryOf(secs', s, k) == EntryOf(secs, s, k) && (OwesHeader(secs', s) <==> OwesHeader(secs, s)))
            && (!LookDirty(secs', s, k) ==> Look(secs', s, k) == Look(secs, s, k))
  {
    var r := FindSection(secs, sec);
    RemoveFromIs(secs, sec, 0);
    if EqNoCase(s, sec) {
      SectionFromCase(secs, s, sec, 0);
    }
    if sec != "" && r < |secs| {
      assert SectionOk(secs[r]);
      if secs[r].removed {
        if EqNoCase(s, sec) {
          RemovedHides(secs, s, k);
        }
      } else {
        RemovedSectionOk(secs[r]);
        var s' := secs[r].(removed := true, dirty := true, entries := RemoveEntries(secs[r].entries));
        UpdateOk(secs, r, s');
        SectionFromCase(secs, sec, secs[r].name, 0);
        EntriesOfUpdate(secs, r, s', s);
        CaseShift(secs[r].name, sec, s);
        RemoveEntriesAt(secs[r].entries, k, 0);
      }
    }
  }

  // Nothing is visible in a removed section.
  lemma RemovedHides(secs: seq<Section>, s: string, k: string)
    requires Inv(secs) && FindSection(secs, s) < |secs| && secs[FindSection(secs, s)].removed
    ensures !Look(secs, s, k).Bound?
  {
    var i := FindSection(secs, s);
    assert SectionOk(secs[i]);
    var j := FindEntry(secs[i].entries, k);
    if j < |secs[i].entries| {
      assert !Visible(secs[i].entries[j]);
    }
  }

  lemma RemoveClean(secs: seq<Section>, sec: string)
    requires Inv(secs) && Clean(secs)
    ensures Clean(RemoveSection(secs, sec).0)
  {
    var r := FindSection(secs, sec);
    RemoveFromIs(secs, sec, 0);
    if RemoveSection(secs, sec).1 {
      assert CleanSection(secs[r]) && SectionOk(secs[r]);
      var s' := secs[r].(removed := true, dirty := true, entries := RemoveEntries(secs[r].entries));
      assert |s'.name| == |Lower(s'.name)| == |Lower(sec)| == |sec|;
      assert CleanSection(s');
      UpdateClean(secs, r, s');
    }
  }

  // ---- load and save

  lemma LoadClean(secs: seq<Section>)
    requires Loadable(secs)
    ensures Clean(secs)
  {
  }

  lemma {:induction false} ClearEntriesAt(es: seq<Entry>, key: string, i: nat)
    requires i <= |es|
    ensures EntryFrom(ClearEntries(es), key, i) == EntryFrom(es, key, i)
    decreases |es| - i
  {
    if i < |es| {
      ClearEntriesAt(es, key, i + 1);
    }
  }

  lemma {:induction false} ClearSectionsAt(secs: seq<Section>, name: string, i: nat)
    requires i <= |secs|
    ensures SectionFrom(ClearDirty(secs), name, i) == SectionFrom(secs, name, i)
    decreases |secs| - i
  {
    if i < |secs| {
      ClearSectionsAt(secs, name, i + 1);
    }
  }

  function Saved(o: Slot): Slot {
    match o
    case Absent => Absent
    case Bound(v, d) => Bound(v, false)
    case TakenOff(d) => TakenOff(false)
  }

  /** Clearing the flags after a save: nothing is dirty, and no value changes. */
  lemma ClearAt(secs: seq<Section>, s: string, k: string)
    ensures Look(ClearDirty(secs), s, k) == Saved(Look(secs, s, k))
    ensures !OwesHeader(ClearDirty(secs), s) && !LookDirty(ClearDirty(secs), s, k)
  {
    ClearSectionsAt(secs, s, 0);
    var i := FindSection(secs, s);
    if i < |secs| {
      ClearEntriesAt(secs[i].entries, k, 0);
    }
  }

  lemma ClearOk(secs: seq<Section>)
    requires Inv(secs)
    ensures Inv(ClearDirty(secs)) && Clean(ClearDirty(secs))
  {
    var secs' := ClearDirty(secs);
    forall i | 0 <= i < |secs'|
      ensures SectionOk(secs'[i]) && CleanSection(secs'[i])
    {
      assert SectionOk(secs[i]);
      ClearSectionOk(secs[i]);
    }
    assert forall i | 0 <= i < |secs| :: secs'[i].name == secs[i].name;
  }

  lemma ClearSectionOk(s: Section)
    requires SectionOk(s)
    ensures SectionOk(s.(dirty := false, entries := ClearEntries(s.entries)))
    ensures CleanSection(s.(dirty := false, entries := ClearEntries(s.entries)))
  {
    var es' := ClearEntries(s.entries);
    assert forall j | 0 <= j < |es'| :: es'[j].key == s.entries[j].key;
  }
}
