/** The order in which a save meets what is new: names that are set for the first time
    are collected in the order in which they were set, behind everything else that their
    section owes, and nothing else changes its place. */
module ConfigOrder {
  import opened CText
  import opened ConfigLines
  import opened ConfigStore
  import opened ConfigStoreInv

  // No section of the name holds the key.
  predicate Unheard(secs: seq<Section>, sec: string, key: string) {
    forall i | 0 <= i < |secs| && EqNoCase(secs[i].name, sec) ::
      FindEntry(secs[i].entries, key) == |secs[i].entries|
  }

  function NewRef(name: string, key: string, value: string): Ref {
    KeyRef(name, Clip(key, MAX_KEY - 1), Clip(value, MAX_VAL - 1), false)
  }

  // ---- walks of a store in two pieces

  lemma {:induction false} FlatConcat(a: seq<Section>, b: seq<Section>)
    ensures FlatRefs(a + b) == FlatRefs(a) + FlatRefs(b)
  {
    hide SectionRefs;
    if a == [] {
      assert a + b == b;
    } else {
      assert (a + b)[1..] == a[1..] + b;
      FlatConcat(a[1..], b);
    }
  }

  lemma FlatAt(secs: seq<Section>, i: nat)
    requires i < |secs|
    ensures FlatRefs(secs) == FlatRefs(secs[..i]) + SectionRefs(secs[i]) + FlatRefs(secs[i + 1..])
  {
    hide SectionRefs;
    assert secs == secs[..i] + secs[i..];
    FlatConcat(secs[..i], secs[i..]);
    assert secs[i..][1..] == secs[i + 1..];
  }

  lemma {:induction false} EntryRefsNamed(sec: string, es: seq<Entry>)
    ensures forall j | 0 <= j < |EntryRefs(sec, es)| :: EntryRefs(sec, es)[j].sec == sec
  {
    if es != [] {
      EntryRefsNamed(sec, es[1..]);
    }
  }

  lemma SectionRefsNamed(s: Section)
    ensures forall j | 0 <= j < |SectionRefs(s)| :: SectionRefs(s)[j].sec == s.name
  {
    hide EntryRefs;
    EntryRefsNamed(s.name, s.entries);
  }

  // The references of sections of other names
  predicate Others(rs: seq<Ref>, sec: string) {
    forall j | 0 <= j < |rs| :: !EqNoCase(rs[j].sec, sec)
  }

  lemma {:induction false} FlatOthers(secs: seq<Section>, sec: string)
    requires forall i | 0 <= i < |secs| :: !EqNoCase(secs[i].name, sec)
    ensures Others(FlatRefs(secs), sec)
  {
    hide SectionRefs, EqNoCase;
    if secs != [] {
      SectionRefsNamed(secs[0]);
      assert forall i | 0 <= i < |secs[1..]| :: secs[1..][i] == secs[i + 1];
      FlatOthers(secs[1..], sec);
    }
  }

  // ---- a name set for the first time

  // What a section owes once a name has been put in front of its entries
  lemma SectionPut(s: Section, key: string, value: string)
    requires FindEntry(s.entries, key) == |s.entries|
    ensures var t := s.(removed := false, dirty := false, entries := PutEntry(s.entries, key, value, true, false));
            SectionRefs(t) == [NewRef(s.name, key, value)] + EntryRefs(s.name, s.entries)
  {
    hide FindEntry;
    var e := Entry(Clip(key, MAX_KEY - 1), Clip(value, MAX_VAL - 1), true, false, false);
    assert ([e] + s.entries)[1..] == s.entries;
  }

  // The walk over a store after the set: the new reference in front of what its section owed
  lemma FlatPut(ws: seq<Section>, i: nat, key: string, value: string)
    requires i < |ws| && FindEntry(ws[i].entries, key) == |ws[i].entries|
    ensures var s := ws[i];
            var t := s.(removed := false, dirty := false, entries := PutEntry(s.entries, key, value, true, false));
            FlatRefs(ws[i := t])
            == FlatRefs(ws[..i]) + ([NewRef(s.name, key, value)] + EntryRefs(s.name, s.entries)) + FlatRefs(ws[i + 1..])
  {
    hide SectionRefs, PutEntry, EntryRefs, FindEntry;
    var s := ws[i];
    var t := s.(removed := false, dirty := false, entries := PutEntry(s.entries, key, value, true, false));
    SectionPut(s, key, value);
    FlatAt(ws[i := t], i);
    assert ws[i := t][..i] == ws[..i] && ws[i := t][i + 1..] == ws[i + 1..];
  }

  lemma ReversePieces(a: seq<Ref>, x: Ref, b: seq<Ref>, c: seq<Ref>)
    ensures Reverse(a + ([x] + b) + c) == Reverse(c) + Reverse(b) + [x] + Reverse(a)
  {
    var s := a + ([x] + b) + c;
    var t := Reverse(c) + Reverse(b) + [x] + Reverse(a);
    forall i | 0 <= i < |s|
      ensures Reverse(s)[i] == t[i]
    {
    }
  }

  lemma ReverseOthers(rs: seq<Ref>, sec: string)
    requires Others(rs, sec)
    ensures Others(Reverse(rs), sec)
  {
  }

  lemma SetIs(secs: seq<Section>, sec: string, key: string, value: string)
    requires sec != ""
    ensures var ws, i := WithSection(secs, sec), SectionSlot(secs, sec);
            Set(secs, sec, key, value)
            == ws[i := ws[i].(removed := false, dirty := false,
                              entries := PutEntry(ws[i].entries, key, value, true, false))]
  {
    hide WithSection, SectionSlot, PutEntry;
  }

  // The section a set uses is the only one of its name, and does not hold the key.
  lemma SlotFacts(secs: seq<Section>, sec: string, key: string)
    requires Inv(secs) && |sec| < MAX_SECN && Unheard(secs, sec, key)
    ensures var ws, i := WithSection(secs, sec), SectionSlot(secs, sec);
            && i < |ws| && EqNoCase(ws[i].name, sec) && FindEntry(ws[i].entries, key) == |ws[i].entries|
            && (forall j | 0 <= j < |ws| && j != i :: !EqNoCase(ws[j].name, sec))
            && FlatRefs(ws) == FlatRefs(secs)
  {
    var ws, i := WithSection(secs, sec), SectionSlot(secs, sec);
    hide FlatRefs, SectionOk, FindEntry;
    NoEntries(sec, key);
    if FindSection(secs, sec) == |secs| {
      NotFound(secs, sec, 0);
      assert ws == [Section(sec, false, false, [])] + secs;
      FlatConcat([Section(sec, false, false, [])], secs);
      NothingOwed(Section(sec, false, false, []));
      assert forall j | 0 < j < |ws| :: ws[j] == secs[j - 1];
    }
  }

  lemma NoEntries(sec: string, key: string)
    ensures FindEntry([], key) == 0
  {
  }

  lemma NothingOwed(s: Section)
    requires !s.removed && s.entries == []
    ensures FlatRefs([s]) == []
  {
    assert [s][1..] == [];
    assert FlatRefs([s]) == SectionRefs(s) + FlatRefs([]);
  }

  lemma {:induction false} NotFound(secs: seq<Section>, sec: string, i: nat)
    requires i <= |secs| && SectionFrom(secs, sec, i) == |secs|
    ensures forall j | i <= j < |secs| :: !EqNoCase(secs[j].name, sec)
    decreases |secs| - i
  {
    if i < |secs| {
      NotFound(secs, sec, i + 1);
    }
  }

  // The list with one reference put in at k
  predicate PutIn(before: seq<Ref>, after: seq<Ref>, k: nat, r: Ref) {
    k <= |before| && after == before[..k] + [r] + before[k..]
  }

  /** A name that is set for the first time is collected behind all that its section owes
      so far, and the rest of the list is as it was: so new names are written in the order
      in which they were set. */
  lemma SetComesLast(secs: seq<Section>, sec: string, key: string, value: string) returns (k: nat, name: string)
    requires Inv(secs) && sec != "" && |sec| < MAX_SECN && Unheard(secs, sec, key) && !OwesHeader(secs, sec)
    ensures EqNoCase(name, sec)
    ensures PutIn(CollectDirty(secs), CollectDirty(Set(secs, sec, key, value)), k, NewRef(name, key, value))
    ensures forall j | k <= j < |CollectDirty(secs)| :: !EqNoCase(CollectDirty(secs)[j].sec, sec)
  {
    hide *;
    var ws, i := WithSection(secs, sec), SectionSlot(secs, sec);
    SetIs(secs, sec, key, value);
    SlotFacts(secs, sec, key);
    name := ws[i].name;
    FlatPut(ws, i, key, value);
    FlatAt(ws, i);
    NoHeaderOwed(secs, sec);
    var a, b, c := FlatRefs(ws[..i]), EntryRefs(name, ws[i].entries), FlatRefs(ws[i + 1..]);
    ReversePieces(a, NewRef(name, key, value), b, c);
    ReverseThree(a, b, c);
    k := |c| + |b|;
    Split(Reverse(c) + Reverse(b), Reverse(a), NewRef(name, key, value));
    FrontOthers(ws, i, sec);
    ReverseOthers(a, sec);
    CollectIs(secs);
    CollectIs(Set(secs, sec, key, value));
    BackOthers(Reverse(c) + Reverse(b), Reverse(a), sec);
  }

  lemma CollectIs(secs: seq<Section>)
    ensures CollectDirty(secs) == Reverse(FlatRefs(secs))
  {
    hide Reverse, FlatRefs;
  }

  lemma FrontOthers(ws: seq<Section>, i: nat, sec: string)
    requires i < |ws| && forall j | 0 <= j < |ws| && j != i :: !EqNoCase(ws[j].name, sec)
    ensures Others(FlatRefs(ws[..i]), sec)
  {
    hide FlatRefs, EqNoCase;
    FlatOthers(ws[..i], sec);
  }

  lemma NoHeaderOwed(secs: seq<Section>, sec: string)
    requires Inv(secs) && !OwesHeader(secs, sec)
    ensures var ws, i := WithSection(secs, sec), SectionSlot(secs, sec);
            SectionRefs(ws[i]) == EntryRefs(ws[i].name, ws[i].entries)
  {
    hide EntryRefs, SectionFrom;
  }

  lemma ReverseThree(a: seq<Ref>, b: seq<Ref>, c: seq<Ref>)
    ensures Reverse(a + b + c) == Reverse(c) + Reverse(b) + Reverse(a)
  {
    var s, t := a + b + c, Reverse(c) + Reverse(b) + Reverse(a);
    forall i | 0 <= i < |s|
      ensures Reverse(s)[i] == t[i]
    {
    }
  }

  lemma Split(front: seq<Ref>, back: seq<Ref>, r: Ref)
    ensures PutIn(front + back, front + [r] + back, |front|, r)
  {
    assert (front + back)[..|front|] == front && (front + back)[|front|..] == back;
  }

  lemma BackOthers(front: seq<Ref>, back: seq<Ref>, sec: string)
    requires Others(back, sec)
    ensures forall j | |front| <= j < |front + back| :: !EqNoCase((front + back)[j].sec, sec)
  {
    hide EqNoCase;
  }
}
