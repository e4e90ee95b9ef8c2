/** The invariant of the in-memory configuration, and lookups under it. */
module ConfigStoreInv {
  import opened Basics
  import opened CText
  import opened ConfigLines
  import opened ConfigMeaning
  import opened ConfigStore
  import opened ConfigStoreFacts

  predicate KeysDistinct(es: seq<Entry>) {
    forall i, j | 0 <= i < j < |es| :: !EqNoCase(es[i].key, es[j].key)
  }

  /** A dirty entry that is only there for display was taken out: only an unset
      leaves both marks. */
  predicate EntryOk(e: Entry) {
    |e.key| < MAX_KEY && |e.value| < MAX_VAL && (e.dirty && e.defaulted ==> e.removed)
  }

  predicate SectionOk(s: Section) {
    && |s.name| < MAX_SECN
    && KeysDistinct(s.entries)
    && (forall j | 0 <= j < |s.entries| :: EntryOk(s.entries[j]))
    && (s.removed ==> forall j | 0 <= j < |s.entries| :: !Visible(s.entries[j]))
  }

  predicate NamesDistinct(secs: seq<Section>) {
    forall i, j | 0 <= i < j < |secs| :: !EqNoCase(secs[i].name, secs[j].name)
  }

  predicate Inv(secs: seq<Section>) {
    NamesDistinct(secs) && forall i | 0 <= i < |secs| :: SectionOk(secs[i])
  }

  // ---- what a name is bound to, for the code that looks it up

  datatype Slot = Absent | Bound(value: string, dirty: bool) | TakenOff(dirty: bool)

  function SlotOf(o: Option<Entry>): Slot {
    match o
    case None => Absent
    case Some(e) => if e.removed then TakenOff(e.dirty) else if e.defaulted then Absent else Bound(e.value, e.dirty)
  }

  function Look(secs: seq<Section>, sec: string, key: string): Slot {
    SlotOf(EntryOf(secs, sec, key))
  }

  // The section has a removal the file has not seen
  predicate OwesHeader(secs: seq<Section>, sec: string) {
    var i := FindSection(secs, sec);
    i < |secs| && secs[i].removed && secs[i].dirty
  }

  // ---- add_entry_ex keeps the invariant

  lemma PutEntryOk(es: seq<Entry>, key: string, value: string, dirty: bool, defaulted: bool)
    requires KeysDistinct(es) && forall j | 0 <= j < |es| :: EntryOk(es[j])
    requires |key| < MAX_KEY && !(dirty && defaulted)
    ensures var es' := PutEntry(es, key, value, dirty, defaulted);
            && KeysDistinct(es')
            && (forall j | 0 <= j < |es'| :: EntryOk(es'[j]))
            && (defaulted && (forall j | 0 <= j < |es| :: !Visible(es[j])) ==>
                  forall j | 0 <= j < |es'| :: !Visible(es'[j]))
  {
    var es' := PutEntry(es, key, value, dirty, defaulted);
    var i := FindEntry(es, key);
    if i < |es| {
      assert forall j | 0 <= j < |es'| :: es'[j].key == es[j].key;
    } else {
      EntryFromFirst(es, key, 0);
      assert forall j | 1 <= j < |es'| :: es'[j] == es[j - 1];
      forall j, k | 0 <= j < k < |es'|
        ensures !EqNoCase(es'[j].key, es'[k].key)
      {
        if j == 0 {
          assert es'[k] == es[k - 1];
        }
      }
    }
  }

  lemma WithSectionOk(secs: seq<Section>, name: string)
    requires Inv(secs) && |name| < MAX_SECN
    ensures Inv(WithSection(secs, name))
  {
    var ws := WithSection(secs, name);
    if FindSection(secs, name) == |secs| {
      SectionFromFirst(secs, name, 0);
      assert forall j | 1 <= j < |ws| :: ws[j] == secs[j - 1];
    }
  }

  lemma UpdateOk(secs: seq<Section>, i: nat, s: Section)
    requires Inv(secs) && i < |secs| && SectionOk(s) && s.name == secs[i].name
    ensures Inv(secs[i := s])
  {
    var secs' := secs[i := s];
    assert forall j | 0 <= j < |secs| :: secs'[j].name == secs[j].name;
  }

  lemma PutDefaultOk(secs: seq<Section>, sec: string, key: string, value: string)
    requires Inv(secs) && |sec| < MAX_SECN && |key| < MAX_KEY
    ensures Inv(Put(secs, sec, key, value, false, true))
  {
    WithSectionOk(secs, sec);
    var ws, i := WithSection(secs, sec), SectionSlot(secs, sec);
    assert SectionOk(ws[i]);
    PutEntryOk(ws[i].entries, key, value, false, true);
    UpdateOk(ws, i, ws[i].(entries := PutEntry(ws[i].entries, key, value, false, true)));
  }

  lemma SetOk(secs: seq<Section>, sec: string, key: string, value: string)
    requires Inv(secs) && |sec| < MAX_SECN && |key| < MAX_KEY
    ensures Inv(Set(secs, sec, key, value))
  {
    if sec != "" {
      WithSectionOk(secs, sec);
      var ws, i := WithSection(secs, sec), SectionSlot(secs, sec);
      assert SectionOk(ws[i]);
      PutEntryOk(ws[i].entries, key, value, true, false);
      UpdateOk(ws, i, ws[i].(removed := false, dirty := false,
                             entries := PutEntry(ws[i].entries, key, value, true, false)));
    }
  }

  // ---- lookups

  lemma {:induction false} VisibleFromIs(es: seq<Entry>, key: string, i: nat)
    requires i <= |es| && KeysDistinct(es)
    ensures var r := EntryFrom(es, key, i);
            VisibleFrom(es, key, i) == if r < |es| && Visible(es[r]) then r else |es|
    decreases |es| - i
  {
    if i < |es| {
      if EqNoCase(es[i].key, key) {
        forall j | i < j < |es|
          ensures !EqNoCase(es[j].key, key)
        {
          CaseShift(es[i].key, key, es[j].key);
        }
        NoneVisible(es, key, i + 1);
      } else {
        VisibleFromIs(es, key, i + 1);
      }
    }
  }

  lemma {:induction false} NoneVisible(es: seq<Entry>, key: string, i: nat)
    requires i <= |es| && forall j | i <= j < |es| :: !EqNoCase(es[j].key, key)
    ensures VisibleFrom(es, key, i) == |es|
    decreases |es| - i
  {
    if i < |es| {
      NoneVisible(es, key, i + 1);
    }
  }

  // Only the section a name finds first has that name.
  lemma OtherNames(secs: seq<Section>, sec: string, j: nat)
    requires NamesDistinct(secs) && j < |secs| && j != FindSection(secs, sec)
    ensures !EqNoCase(secs[j].name, sec)
  {
    var r := FindSection(secs, sec);
    SectionFromFirst(secs, sec, 0);
    if r < j {
      CaseShift(secs[r].name, sec, secs[j].name);
    }
  }

  lemma {:induction false} GetFromIs(secs: seq<Section>, sec: string, key: string, i: nat)
    requires NamesDistinct(secs) && i <= |secs|
    ensures var r := FindSection(secs, sec);
            GetFrom(secs, sec, key, i)
            == if i <= r < |secs| && VisibleFrom(secs[r].entries, key, 0) < |secs[r].entries|
               then Some(secs[r].entries[VisibleFrom(secs[r].entries, key, 0)].value) else None
    decreases |secs| - i
  {
    if i < |secs| {
      GetFromIs(secs, sec, key, i + 1);
      if i != FindSection(secs, sec) {
        OtherNames(secs, sec, i);
      }
    }
  }

  /** A value lookup answers what the name is bound to. */
  lemma GetIsLook(secs: seq<Section>, sec: string, key: string)
    requires Inv(secs)
    ensures Get(secs, sec, key) == match Look(secs, sec, key) case Bound(v, d) => Some(v) case _ => None
  {
    GetFromIs(secs, sec, key, 0);
    var r := FindSection(secs, sec);
    if r < |secs| {
      assert SectionOk(secs[r]);
      VisibleFromIs(secs[r].entries, key, 0);
    }
  }

  // ---- unset

  lemma {:induction false} UnsetFromIs(secs: seq<Section>, sec: string, key: string, i: nat)
    requires NamesDistinct(secs) && i <= |secs|
    ensures var r := FindSection(secs, sec);
            UnsetFrom(secs, sec, key, i) ==
            if i <= r < |secs| && FindEntry(secs[r].entries, key) < |secs[r].entries|
               && Visible(secs[r].entries[FindEntry(secs[r].entries, key)])
            then (UnsetIn(secs, r, FindEntry(secs[r].entries, key)), true) else (secs, false)
    decreases |secs| - i
  {
    if i < |secs| {
      UnsetFromIs(secs, sec, key, i + 1);
      if i != FindSection(secs, sec) {
        OtherNames(secs, sec, i);
      }
    }
  }

  function UnsetIn(secs: seq<Section>, r: nat, j: nat): seq<Section>
    requires r < |secs| && j < |secs[r].entries|
  {
    secs[r := secs[r].(entries := secs[r].entries[j := MarkRemoved(secs[r].entries[j])])]
  }

  /** rss_config_unset, for every name, and what it answers. */
  lemma UnsetAt(secs: seq<Section>, sec: string, key: string, s: string, k: string)
    requires Inv(secs)
    ensures Unset(secs, sec, key).1 <==> Look(secs, sec, key).Bound?
    ensures EntryOf(Unset(secs, sec, key).0, s, k)
         == if Look(secs, sec, key).Bound? && EqNoCase(s, sec) && EqNoCase(k, key)
            then Some(MarkRemoved(EntryOf(secs, sec, key).value)) else EntryOf(secs, s, k)
  {
    UnsetFromIs(secs, sec, key, 0);
    var r := FindSection(secs, sec);
    if Look(secs, sec, key).Bound? {
      var es := secs[r].entries;
      var j := FindEntry(es, key);
      SectionFromCase(secs, sec, secs[r].name, 0);
      EntriesOfUpdate(secs, r, secs[r].(entries := es[j := MarkRemoved(es[j])]), s);
      CaseShift(secs[r].name, sec, s);
      EntryFromCase(es, key, es[j].key, 0);
      EntryAtUpdate(es, j, MarkRemoved(es[j]), k);
      CaseShift(es[j].key, key, k);
      if EqNoCase(s, sec) {
        SectionFromCase(secs, s, sec, 0);
      }
    }
  }

  lemma UnsetOk(secs: seq<Section>, sec: string, key: string)
    requires Inv(secs)
    ensures Inv(Unset(secs, sec, key).0)
    ensures forall s :: OwesHeader(Unset(secs, sec, key).0, s) <==> OwesHeader(secs, s)
  {
    UnsetFromIs(secs, sec, key, 0);
    var r := FindSection(secs, sec);
    if Look(secs, sec, key).Bound? {
      var j := FindEntry(secs[r].entries, key);
      assert SectionOk(secs[r]);
      var s' := secs[r].(entries := secs[r].entries[j := MarkRemoved(secs[r].entries[j])]);
      assert forall i | 0 <= i < |s'.entries| :: s'.entries[i].key == secs[r].entries[i].key;
      assert SectionOk(s');
      UpdateOk(secs, r, s');
      SectionFromCase(secs, sec, secs[r].name, 0);
      forall s
        ensures FindSection(secs[r := s'], s) == FindSection(secs, s)
      {
        EntriesOfUpdate(secs, r, s', s);
      }
    }
  }

  // ---- has_dirty

  lemma EntryReached(secs: seq<Section>, i: nat, j: nat)
    requires Inv(secs) && i < |secs| && j < |secs[i].entries|
    ensures EntryOf(secs, secs[i].name, secs[i].entries[j].key) == Some(secs[i].entries[j])
  {
    SectionReached(secs, i);
    assert SectionOk(secs[i]);
    var es := secs[i].entries;
    forall k | 0 <= k < j
      ensures !EqNoCase(es[k].key, es[j].key)
    {
    }
    EntryFromIs(es, es[j].key, 0, j);
  }

  lemma SectionReached(secs: seq<Section>, i: nat)
    requires NamesDistinct(secs) && i < |secs|
    ensures FindSection(secs, secs[i].name) == i
  {
    SectionFromIs(secs, secs[i].name, 0, i);
  }

  ghost predicate SomethingDirty(secs: seq<Section>) {
    || (exists s :: OwesHeader(secs, s))
    || (exists s, k :: LookDirty(secs, s, k))
  }

  predicate LookDirty(secs: seq<Section>, s: string, k: string) {
    match Look(secs, s, k)
    case Absent => false
    case Bound(v, d) => d
    case TakenOff(d) => d
  }

  /** rss_config_has_dirty: some name is set or taken out and not saved, or some
      section's removal is. */
  lemma HasDirtyIs(secs: seq<Section>)
    requires Inv(secs)
    ensures HasDirty(secs) <==> SomethingDirty(secs)
  {
    if HasDirty(secs) {
      var i :| 0 <= i < |secs| && SectionDirty(secs[i]);
      SectionReached(secs, i);
      assert SectionOk(secs[i]);
      if secs[i].removed && secs[i].dirty {
        assert OwesHeader(secs, secs[i].name);
      } else {
        var j :| 0 <= j < |secs[i].entries| && secs[i].entries[j].dirty;
        EntryReached(secs, i, j);
        assert EntryOk(secs[i].entries[j]);
        assert LookDirty(secs, secs[i].name, secs[i].entries[j].key);
      }
    }
    if s :| OwesHeader(secs, s) {
      assert SectionDirty(secs[FindSection(secs, s)]);
    }
    if s, k :| LookDirty(secs, s, k) {
      var i := FindSection(secs, s);
      assert secs[i].entries[FindEntry(secs[i].entries, k)].dirty;
      assert SectionDirty(secs[i]);
    }
  }
}
