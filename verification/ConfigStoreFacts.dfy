/** What the operations on the in-memory configuration do to one name, and the
    invariant they all keep. */
module ConfigStoreFacts {
  import opened Basics
  import opened CText
  import opened ConfigLines
  import opened ConfigMeaning
  import opened ConfigStore

  // ---- one name at a time

  // The entry a key finds first
  function EntryAt(es: seq<Entry>, key: string): Option<Entry> {
    var i := FindEntry(es, key);
    if i < |es| then Some(es[i]) else None
  }

  // The entries of the section a name finds first
  function EntriesOf(secs: seq<Section>, sec: string): seq<Entry> {
    var i := FindSection(secs, sec);
    if i < |secs| then secs[i].entries else []
  }

  function EntryOf(secs: seq<Section>, sec: string, key: string): Option<Entry> {
    EntryAt(EntriesOf(secs, sec), key)
  }

  // ---- the first match, in pieces

  lemma {:induction false} EntryFromCase(es: seq<Entry>, a: string, b: string, i: nat)
    requires i <= |es| && EqNoCase(a, b)
    ensures EntryFrom(es, a, i) == EntryFrom(es, b, i)
    decreases |es| - i
  {
    if i < |es| {
      EntryFromCase(es, a, b, i + 1);
    }
  }

  lemma {:induction false} EntryFromFirst(es: seq<Entry>, key: string, i: nat)
    requires i <= |es|
    ensures forall j | i <= j < EntryFrom(es, key, i) :: !EqNoCase(es[j].key, key)
    decreases |es| - i
  {
    if i < |es| && !EqNoCase(es[i].key, key) {
      EntryFromFirst(es, key, i + 1);
    }
  }

  lemma {:induction false} EntryFromIs(es: seq<Entry>, key: string, i: nat, r: nat)
    requires i <= r <= |es|
    requires r < |es| ==> EqNoCase(es[r].key, key)
    requires forall j | i <= j < r :: !EqNoCase(es[j].key, key)
    ensures EntryFrom(es, key, i) == r
    decreases r - i
  {
    if i < r {
      EntryFromIs(es, key, i + 1, r);
    }
  }

  // Replacing an entry by one of the same key
  lemma EntryAtUpdate(es: seq<Entry>, j: nat, e: Entry, key: string)
    requires j < |es| && e.key == es[j].key && j == FindEntry(es, es[j].key)
    ensures EntryAt(es[j := e], key) == if EqNoCase(key, es[j].key) then Some(e) else EntryAt(es, key)
  {
    var r := FindEntry(es, key);
    EntryFromFirst(es, key, 0);
    if EqNoCase(key, es[j].key) {
      EntryFromCase(es, key, es[j].key, 0);
    }
    EntryFromIs(es[j := e], key, 0, r);
  }

  lemma EntryAtPush(es: seq<Entry>, e: Entry, key: string)
    ensures EntryAt([e] + es, key) == if EqNoCase(e.key, key) then Some(e) else EntryAt(es, key)
  {
    var es' := [e] + es;
    if EqNoCase(e.key, key) {
      EntryFromIs(es', key, 0, 0);
    } else {
      var r := FindEntry(es, key);
      EntryFromFirst(es, key, 0);
      assert forall j | 0 <= j < |es| :: es'[j + 1] == es[j];
      forall j | 0 <= j < r + 1
        ensures !EqNoCase(es'[j].key, key)
      {
        if j > 0 {
          assert es'[j] == es[j - 1];
        }
      }
      EntryFromIs(es', key, 0, r + 1);
    }
  }

  lemma CaseShift(a: string, b: string, c: string)
    requires EqNoCase(a, b)
    ensures EqNoCase(a, c) <==> EqNoCase(b, c)
    ensures EqNoCase(c, a) <==> EqNoCase(c, b)
  {
  }

  // What add_entry_ex stores when the key is not there yet
  function NewEntry(key: string, value: string, dirty: bool, defaulted: bool): Entry {
    Entry(Clip(key, MAX_KEY - 1), Clip(value, MAX_VAL - 1), dirty, defaulted, false)
  }

  // The entry of `key` after add_entry_ex
  function PutTo(o: Option<Entry>, key: string, value: string, dirty: bool, defaulted: bool): Entry {
    match o
    case None => NewEntry(key, value, dirty, defaulted)
    case Some(e) => Overwrite(e, value, dirty, defaulted)
  }

  /** add_entry_ex changes the entry of its own key and no other. */
  lemma PutEntryAt(es: seq<Entry>, key: string, value: string, dirty: bool, defaulted: bool, k: string)
    requires |key| < MAX_KEY
    ensures EntryAt(PutEntry(es, key, value, dirty, defaulted), k)
         == if EqNoCase(k, key) then Some(PutTo(EntryAt(es, key), key, value, dirty, defaulted)) else EntryAt(es, k)
  {
    var i := FindEntry(es, key);
    if i < |es| {
      EntryFromCase(es, key, es[i].key, 0);
      CaseShift(es[i].key, key, k);
      EntryAtUpdate(es, i, Overwrite(es[i], value, dirty, defaulted), k);
    } else {
      EntryAtPush(es, NewEntry(key, value, dirty, defaulted), k);
    }
  }

  // ---- sections

  lemma {:induction false} SectionFromIs(secs: seq<Section>, name: string, i: nat, r: nat)
    requires i <= r <= |secs|
    requires r < |secs| ==> EqNoCase(secs[r].name, name)
    requires forall j | i <= j < r :: !EqNoCase(secs[j].name, name)
    ensures SectionFrom(secs, name, i) == r
    decreases r - i
  {
    if i < r {
      SectionFromIs(secs, name, i + 1, r);
    }
  }

  lemma {:induction false} SectionFromFirst(secs: seq<Section>, name: string, i: nat)
    requires i <= |secs|
    ensures forall j | i <= j < SectionFrom(secs, name, i) :: !EqNoCase(secs[j].name, name)
    decreases |secs| - i
  {
    if i < |secs| && !EqNoCase(secs[i].name, name) {
      SectionFromFirst(secs, name, i + 1);
    }
  }

  lemma {:induction false} SectionFromCase(secs: seq<Section>, a: string, b: string, i: nat)
    requires i <= |secs| && EqNoCase(a, b)
    ensures SectionFrom(secs, a, i) == SectionFrom(secs, b, i)
    decreases |secs| - i
  {
    if i < |secs| {
      SectionFromCase(secs, a, b, i + 1);
    }
  }

  /** find_or_create_section: the section it returns is the one the name finds,
      and no other section's entries change. */
  lemma WithSectionFinds(secs: seq<Section>, name: string, sec: string)
    requires |name| < MAX_SECN
    ensures FindSection(WithSection(secs, name), name) == SectionSlot(secs, name)
    ensures EntriesOf(WithSection(secs, name), sec) == EntriesOf(secs, sec)
  {
    var ws := WithSection(secs, name);
    if FindSection(secs, name) == |secs| {
      SectionFromIs(ws, name, 0, 0);
      if EqNoCase(name, sec) {
        SectionFromCase(secs, name, sec, 0);
        SectionFromCase(ws, name, sec, 0);
      } else {
        PushedSection(ws[0], secs, sec);
      }
    }
  }

  lemma PushedSection(s: Section, secs: seq<Section>, sec: string)
    requires !EqNoCase(s.name, sec)
    ensures FindSection([s] + secs, sec) == FindSection(secs, sec) + 1
    ensures EntriesOf([s] + secs, sec) == EntriesOf(secs, sec)
  {
    var ws := [s] + secs;
    var r := FindSection(secs, sec);
    SectionFromFirst(secs, sec, 0);
    assert forall j | 0 <= j < |secs| :: ws[j + 1] == secs[j];
    forall j | 0 <= j < r + 1
      ensures !EqNoCase(ws[j].name, sec)
    {
      if j > 0 {
        assert ws[j] == secs[j - 1];
      }
    }
    SectionFromIs(ws, sec, 0, r + 1);
  }

  // Changing a section without renaming it
  lemma EntriesOfUpdate(secs: seq<Section>, i: nat, s: Section, sec: string)
    requires i < |secs| && s.name == secs[i].name && i == FindSection(secs, secs[i].name)
    ensures EntriesOf(secs[i := s], sec) == if EqNoCase(sec, s.name) then s.entries else EntriesOf(secs, sec)
    ensures FindSection(secs[i := s], sec) == FindSection(secs, sec)
  {
    var r := FindSection(secs, sec);
    SectionFromFirst(secs, sec, 0);
    if EqNoCase(sec, s.name) {
      SectionFromCase(secs, sec, s.name, 0);
    }
    SectionFromIs(secs[i := s], sec, 0, r);
  }

  lemma PutAtSection(secs: seq<Section>, sec: string, s': Section, x: string)
    requires |sec| < MAX_SECN
    requires s'.name == WithSection(secs, sec)[SectionSlot(secs, sec)].name
    ensures EntriesOf(WithSection(secs, sec)[SectionSlot(secs, sec) := s'], x)
         == if EqNoCase(x, sec) then s'.entries else EntriesOf(secs, x)
    ensures WithSection(secs, sec)[SectionSlot(secs, sec)].entries == EntriesOf(secs, sec)
  {
    var ws, i := WithSection(secs, sec), SectionSlot(secs, sec);
    WithSectionFinds(secs, sec, x);
    WithSectionFinds(secs, sec, sec);
    assert EqNoCase(ws[i].name, sec);
    SectionFromCase(ws, sec, ws[i].name, 0);
    EntriesOfUpdate(ws, i, s', x);
    CaseShift(ws[i].name, sec, x);
  }

  /** add_entry_ex through find_or_create_section, for every name. */
  lemma PutAt(secs: seq<Section>, sec: string, key: string, value: string, dirty: bool, defaulted: bool,
              s: string, k: string)
    requires |sec| < MAX_SECN && |key| < MAX_KEY
    ensures EntryOf(Put(secs, sec, key, value, dirty, defaulted), s, k)
         == if EqNoCase(s, sec) && EqNoCase(k, key)
            then Some(PutTo(EntryOf(secs, sec, key), key, value, dirty, defaulted))
            else EntryOf(secs, s, k)
  {
    PutEntries(secs, sec, key, value, dirty, defaulted, s);
    PutEntryAt(EntriesOf(secs, sec), key, value, dirty, defaulted, k);
    if EqNoCase(s, sec) {
      SectionFromCase(secs, s, sec, 0);
    }
  }

  lemma PutEntries(secs: seq<Section>, sec: string, key: string, value: string, dirty: bool, defaulted: bool, s: string)
    requires |sec| < MAX_SECN
    ensures EntriesOf(Put(secs, sec, key, value, dirty, defaulted), s)
         == if EqNoCase(s, sec) then PutEntry(EntriesOf(secs, sec), key, value, dirty, defaulted)
            else EntriesOf(secs, s)
  {
    var ws, i := WithSection(secs, sec), SectionSlot(secs, sec);
    PutAtSection(secs, sec, ws[i].(entries := PutEntry(ws[i].entries, key, value, dirty, defaulted)), s);
  }

  lemma SetEntries(secs: seq<Section>, sec: string, key: string, value: string, s: string)
    requires 0 < |sec| < MAX_SECN
    ensures EntriesOf(Set(secs, sec, key, value), s)
         == if EqNoCase(s, sec) then PutEntry(EntriesOf(secs, sec), key, value, true, false) else EntriesOf(secs, s)
  {
    var ws, i := WithSection(secs, sec), SectionSlot(secs, sec);
    PutAtSection(secs, sec, ws[i].(removed := false, dirty := false,
                                   entries := PutEntry(ws[i].entries, key, value, true, false)), s);
  }

  /** rss_config_set_str, for every name. */
  lemma SetAt(secs: seq<Section>, sec: string, key: string, value: string, s: string, k: string)
    requires 0 < |sec| < MAX_SECN && |key| < MAX_KEY
    ensures EntryOf(Set(secs, sec, key, value), s, k)
         == if EqNoCase(s, sec) && EqNoCase(k, key)
            then Some(PutTo(EntryOf(secs, sec, key), key, value, true, false))
            else EntryOf(secs, s, k)
  {
    SetEntries(secs, sec, key, value, s);
    PutEntryAt(EntriesOf(secs, sec), key, value, true, false, k);
    if EqNoCase(s, sec) {
      SectionFromCase(secs, s, sec, 0);
    }
  }
}
