/** What a caller can tell about a store, whatever the lengths of the names.

    Names are cut to their buffers when they are stored, so a store may hold several
    entries of one name and several sections of one name. All that any run of calls
    can tell about a name is its `View`: the values of its visible entries in order,
    whether the first entry is visible, and whether a set overwrites a visible entry. */
module ConfigViews {
  import opened Basics
  import opened CText
  import opened ConfigLines
  import opened ConfigStore
  import opened ConfigStoreFacts
  import opened ConfigStoreInv
  import opened ConfigGetters

  // Every stored name fits its buffer.
  predicate Fitted(secs: seq<Section>) {
    forall i | 0 <= i < |secs| :: |secs[i].name| < MAX_SECN && AllShort(secs[i].entries)
  }

  predicate AllShort(es: seq<Entry>) {
    forall j | 0 <= j < |es| :: |es[j].key| < MAX_KEY
  }

  lemma InvFitted(secs: seq<Section>)
    requires Inv(secs)
    ensures Fitted(secs)
  {
    forall i | 0 <= i < |secs|
      ensures |secs[i].name| < MAX_SECN && AllShort(secs[i].entries)
    {
      assert SectionOk(secs[i]);
    }
  }

  // ---- all entries of one name

  function Keyed(es: seq<Entry>, k: string): seq<Entry> {
    if es == [] then [] else (if EqNoCase(es[0].key, k) then [es[0]] else []) + Keyed(es[1..], k)
  }

  function Part(x: Section, s: string, k: string): seq<Entry> {
    if EqNoCase(x.name, s) then Keyed(x.entries, k) else []
  }

  function Named(secs: seq<Section>, s: string, k: string): seq<Entry> {
    if secs == [] then [] else Part(secs[0], s, k) + Named(secs[1..], s, k)
  }

  // Those in the section a set would write to
  function Own(secs: seq<Section>, s: string, k: string): seq<Entry> {
    Keyed(EntriesOf(secs, s), k)
  }

  function Visibles(es: seq<Entry>): seq<string> {
    if es == [] then [] else (if Visible(es[0]) then [es[0].value] else []) + Visibles(es[1..])
  }

  predicate Front(es: seq<Entry>) {
    es != [] && Visible(es[0])
  }

  datatype View = View(values: seq<string>, front: bool, over: bool)

  function ViewOf(secs: seq<Section>, s: string, k: string): View {
    var es := Named(secs, s, k);
    View(Visibles(es), Front(es), Front(Own(secs, s, k)))
  }

  ghost predicate Same(a: seq<Section>, b: seq<Section>) {
    (forall s, k :: ViewOf(a, s, k) == ViewOf(b, s, k)) && (HasDirty(a) <==> HasDirty(b))
  }

  // ---- pieces

  lemma {:induction false} KeyedConcat(a: seq<Entry>, b: seq<Entry>, k: string)
    ensures Keyed(a + b, k) == Keyed(a, k) + Keyed(b, k)
  {
    if a == [] {
      assert a + b == b;
    } else {
      assert (a + b)[0] == a[0] && (a + b)[1..] == a[1..] + b;
      KeyedConcat(a[1..], b, k);
    }
  }

  lemma {:induction false} NamedConcat(a: seq<Section>, b: seq<Section>, s: string, k: string)
    ensures Named(a + b, s, k) == Named(a, s, k) + Named(b, s, k)
  {
    hide Part;
    if a == [] {
      assert a + b == b;
    } else {
      assert (a + b)[0] == a[0] && (a + b)[1..] == a[1..] + b;
      NamedConcat(a[1..], b, s, k);
    }
  }

  lemma {:induction false} VisiblesConcat(a: seq<Entry>, b: seq<Entry>)
    ensures Visibles(a + b) == Visibles(a) + Visibles(b)
  {
    if a == [] {
      assert a + b == b;
    } else {
      assert (a + b)[0] == a[0] && (a + b)[1..] == a[1..] + b;
      VisiblesConcat(a[1..], b);
    }
  }

  lemma {:induction false} NoneKeyed(es: seq<Entry>, k: string)
    requires forall j | 0 <= j < |es| :: !EqNoCase(es[j].key, k)
    ensures Keyed(es, k) == []
  {
    if es != [] {
      NoneKeyed(es[1..], k);
    }
  }

  lemma {:induction false} NoneNamed(secs: seq<Section>, s: string, k: string)
    requires forall i | 0 <= i < |secs| :: !EqNoCase(secs[i].name, s)
    ensures Named(secs, s, k) == []
  {
    if secs != [] {
      NoneNamed(secs[1..], s, k);
    }
  }

  lemma KeyedCut(es: seq<Entry>, j: nat, k: string)
    requires j < |es|
    ensures Keyed(es, k) == Keyed(es[..j], k) + (if EqNoCase(es[j].key, k) then [es[j]] else []) + Keyed(es[j + 1..], k)
  {
    assert es == es[..j] + ([es[j]] + es[j + 1..]);
    KeyedConcat(es[..j], [es[j]] + es[j + 1..], k);
    KeyedConcat([es[j]], es[j + 1..], k);
    KeyedOne(es[j], k);
  }

  lemma KeyedOne(e: Entry, k: string)
    ensures Keyed([e], k) == if EqNoCase(e.key, k) then [e] else []
  {
    assert [e][1..] == [];
  }

  lemma NamedOne(x: Section, s: string, k: string)
    ensures Named([x], s, k) == Part(x, s, k)
  {
    hide Part;
    assert [x][1..] == [];
  }

  lemma NamedCut(secs: seq<Section>, i: nat, s: string, k: string)
    requires i < |secs|
    ensures Named(secs, s, k) == Named(secs[..i], s, k) + Part(secs[i], s, k) + Named(secs[i + 1..], s, k)
  {
    hide Part, Named;
    assert secs == secs[..i] + ([secs[i]] + secs[i + 1..]);
    NamedConcat(secs[..i], [secs[i]] + secs[i + 1..], s, k);
    NamedConcat([secs[i]], secs[i + 1..], s, k);
    NamedOne(secs[i], s, k);
  }

  // The first entry of a key stands first among those of the key.
  lemma KeyedFirst(es: seq<Entry>, k: string)
    ensures var j := FindEntry(es, k);
            if j < |es| then Keyed(es, k) == [es[j]] + Keyed(es[j + 1..], k) else Keyed(es, k) == []
  {
    var j := FindEntry(es, k);
    EntryFromFirst(es, k, 0);
    hide EntryFrom, Keyed;
    NoneKeyed(es[..j], k);
    if j < |es| {
      KeyedCut(es, j, k);
    } else {
      assert es[..j] == es;
    }
  }

  // The entries of the first section of a name stand first among those of the name.
  lemma NamedFirst(secs: seq<Section>, s: string, k: string)
    ensures var i := FindSection(secs, s);
            Named(secs, s, k) == Own(secs, s, k) + (if i < |secs| then Named(secs[i + 1..], s, k) else [])
  {
    var i := FindSection(secs, s);
    SectionFromFirst(secs, s, 0);
    hide SectionFrom, Named;
    NoneNamed(secs[..i], s, k);
    if i < |secs| {
      NamedCut(secs, i, s, k);
    } else {
      assert secs[..i] == secs;
      assert Keyed([], k) == [];
    }
  }

  // ---- what the calls answer

  lemma {:induction false} VisibleFromIs(es: seq<Entry>, k: string, j: nat)
    requires j <= |es|
    ensures var r := VisibleFrom(es, k, j);
            Visibles(Keyed(es[j..], k)) == if r < |es| then [es[r].value] + Visibles(Keyed(es[r + 1..], k)) else []
    decreases |es| - j
  {
    hide *;
    VisibleStep(es, k, j);
    if j < |es| {
      VisibleFromIs(es, k, j + 1);
    }
  }

  lemma VisibleStep(es: seq<Entry>, k: string, j: nat)
    requires j <= |es|
    ensures j == |es| ==> VisibleFrom(es, k, j) == j && Visibles(Keyed(es[j..], k)) == []
    ensures j < |es| ==>
              if EqNoCase(es[j].key, k) && Visible(es[j]) then
                VisibleFrom(es, k, j) == j
                && Visibles(Keyed(es[j..], k)) == [es[j].value] + Visibles(Keyed(es[j + 1..], k))
              else
                VisibleFrom(es, k, j) == VisibleFrom(es, k, j + 1)
                && Visibles(Keyed(es[j..], k)) == Visibles(Keyed(es[j + 1..], k))
  {
    hide Lower, Visible;
    if j < |es| {
      KeyedDrop(es, j, k);
      var rest := Keyed(es[j + 1..], k);
      hide Keyed, Visibles;
      VisiblesHead(es[j], rest);
      NoValues(Visibles(rest));
      NoEntries(rest);
    } else {
      assert es[j..] == [];
    }
  }

  lemma KeyedDrop(es: seq<Entry>, j: nat, k: string)
    requires j < |es|
    ensures Keyed(es[j..], k) == (if EqNoCase(es[j].key, k) then [es[j]] else []) + Keyed(es[j + 1..], k)
  {
    assert es[j..][0] == es[j] && es[j..][1..] == es[j + 1..];
  }

  lemma NoEntries(es: seq<Entry>)
    ensures [] + es == es
  {
  }

  lemma NoValues(vs: seq<string>)
    ensures [] + vs == vs
  {
  }

  lemma VisiblesHead(e: Entry, es: seq<Entry>)
    ensures Visibles([e] + es) == (if Visible(e) then [e.value] else []) + Visibles(es)
  {
    VisiblesConcat([e], es);
    VisiblesOne(e);
  }

  lemma VisiblesOne(e: Entry)
    ensures Visibles([e]) == (if Visible(e) then [e.value] else []) && Visibles([]) == []
  {
    assert [e][1..] == [];
  }

  function FirstOf(vs: seq<string>): Option<string> {
    if vs == [] then None else Some(vs[0])
  }

  lemma {:induction false} GetFromView(secs: seq<Section>, s: string, k: string, i: nat)
    requires i <= |secs|
    ensures GetFrom(secs, s, k, i) == FirstOf(Visibles(Named(secs[i..], s, k)))
    decreases |secs| - i
  {
    if i == |secs| {
      assert secs[i..] == [];
    } else {
      var es := secs[i].entries;
      assert secs[i..][0] == secs[i] && secs[i..][1..] == secs[i + 1..];
      GetFromView(secs, s, k, i + 1);
      VisibleFromIs(es, k, 0);
      assert es[0..] == es;
      VisiblesConcat(Part(secs[i], s, k), Named(secs[i + 1..], s, k));
    }
  }

  /** A lookup answers the first visible value of the name. */
  lemma GetView(secs: seq<Section>, s: string, k: string)
    ensures Get(secs, s, k) == FirstOf(ViewOf(secs, s, k).values)
  {
    GetFromView(secs, s, k, 0);
    assert secs[0..] == secs;
  }

  // ---- one entry put into a section

  lemma {:induction false} KeyedCase(es: seq<Entry>, a: string, b: string)
    requires EqNoCase(a, b)
    ensures Keyed(es, a) == Keyed(es, b)
  {
    if es != [] {
      KeyedCase(es[1..], a, b);
    }
  }

  // A key that does not fit matches no stored key.
  lemma {:induction false} LongMissing(es: seq<Entry>, key: string, j: nat)
    requires j <= |es| && AllShort(es) && |key| >= MAX_KEY
    ensures EntryFrom(es, key, j) == |es|
    decreases |es| - j
  {
    if j < |es| {
      assert |Lower(es[j].key)| != |Lower(key)|;
      LongMissing(es, key, j + 1);
    }
  }

  lemma {:induction false} LongSectionMissing(secs: seq<Section>, name: string, i: nat)
    requires i <= |secs| && Fitted(secs) && |name| >= MAX_SECN
    ensures SectionFrom(secs, name, i) == |secs|
    decreases |secs| - i
  {
    if i < |secs| {
      assert |Lower(secs[i].name)| != |Lower(name)|;
      LongSectionMissing(secs, name, i + 1);
    }
  }

  lemma KeyedReplace(es: seq<Entry>, j: nat, e: Entry, k: string)
    requires j < |es| && j == FindEntry(es, es[j].key) && e.key == es[j].key
    ensures EqNoCase(k, e.key) ==> Keyed(es, k) != [] && Keyed(es, k)[0] == es[j]
    ensures Keyed(es[j := e], k)
         == if EqNoCase(k, e.key) then [e] + Keyed(es, k)[1..] else Keyed(es, k)
  {
    var es' := es[j := e];
    assert es'[..j] == es[..j] && es'[j + 1..] == es[j + 1..];
    KeyedCut(es, j, k);
    KeyedCut(es', j, k);
    if EqNoCase(k, e.key) {
      EntryFromFirst(es, es[j].key, 0);
      forall i | 0 <= i < j
        ensures !EqNoCase(es[..j][i].key, k)
      {
        assert !EqNoCase(es[i].key, es[j].key);
      }
      NoneKeyed(es[..j], k);
      hide Keyed, EntryFrom, Lower;
      assert Keyed(es, k) == [es[j]] + Keyed(es[j + 1..], k);
      assert Keyed(es', k) == [e] + Keyed(es[j + 1..], k);
    }
  }

  lemma KeyedPush(e: Entry, es: seq<Entry>, k: string)
    ensures Keyed([e] + es, k) == (if EqNoCase(e.key, k) then [e] else []) + Keyed(es, k)
  {
    KeyedConcat([e], es, k);
    KeyedOne(e, k);
  }

  // add_entry_ex for the entries of key k
  lemma KeyedPut(es: seq<Entry>, key: string, value: string, dirty: bool, defaulted: bool, k: string)
    requires AllShort(es)
    ensures AllShort(PutEntry(es, key, value, dirty, defaulted))
    ensures var m := Keyed(es, k);
            Keyed(PutEntry(es, key, value, dirty, defaulted), k)
            == if !EqNoCase(k, Clip(key, MAX_KEY - 1)) then m
               else if |key| < MAX_KEY && m != [] then [Overwrite(m[0], value, dirty, defaulted)] + m[1..]
               else [NewEntry(key, value, dirty, defaulted)] + m
  {
    var j := FindEntry(es, key);
    if |key| >= MAX_KEY {
      LongMissing(es, key, 0);
    }
    if j < |es| {
      EntryFromCase(es, key, es[j].key, 0);
      hide EntryFrom, Lower;
      KeyedReplace(es, j, Overwrite(es[j], value, dirty, defaulted), k);
      CaseShift(es[j].key, key, k);
    } else {
      if EqNoCase(k, key) {
        KeyedCase(es, k, key);
      }
      KeyedFirst(es, key);
      hide EntryFrom, Keyed;
      KeyedPush(NewEntry(key, value, dirty, defaulted), es, k);
    }
  }

  // ---- one section changed

  lemma {:induction false} SameSections(a: seq<Section>, b: seq<Section>, s: string, i: nat)
    requires |a| == |b| && i <= |a| && forall j | 0 <= j < |a| :: a[j].name == b[j].name
    ensures SectionFrom(a, s, i) == SectionFrom(b, s, i)
    decreases |a| - i
  {
    if i < |a| {
      SameSections(a, b, s, i + 1);
    }
  }

  lemma OwnUpdate(secs: seq<Section>, i: nat, x: Section, s: string, k: string)
    requires i < |secs| && x.name == secs[i].name
    ensures Own(secs[i := x], s, k) == if FindSection(secs, s) == i then Keyed(x.entries, k) else Own(secs, s, k)
    ensures FindSection(secs[i := x], s) == FindSection(secs, s)
  {
    SameSections(secs, secs[i := x], s, 0);
    hide Keyed, SectionFrom;
  }

  lemma NamedUpdate(secs: seq<Section>, i: nat, x: Section, s: string, k: string)
    requires i < |secs| && x.name == secs[i].name
    ensures Named(secs, s, k) == Named(secs[..i], s, k) + Part(secs[i], s, k) + Named(secs[i + 1..], s, k)
    ensures Named(secs[i := x], s, k) == Named(secs[..i], s, k) + Part(x, s, k) + Named(secs[i + 1..], s, k)
  {
    hide Part, Named;
    var secs' := secs[i := x];
    assert secs'[..i] == secs[..i] && secs'[i + 1..] == secs[i + 1..];
    NamedCut(secs, i, s, k);
    NamedCut(secs', i, s, k);
  }

  /** What became of the entries of (s, k) when those of the section that sec finds, or
      creates, went from es to es'; `rest` are the ones behind that section. */
  predicate SlotMoved(secs: seq<Section>, secs': seq<Section>, sec: string, es: seq<Entry>, es': seq<Entry>,
                      rest: seq<Entry>, s: string, k: string) {
    if !EqNoCase(s, Clip(sec, MAX_SECN - 1)) then Named(secs', s, k) == Named(secs, s, k) && Own(secs', s, k) == Own(secs, s, k)
    else
      && Own(secs', s, k) == Keyed(es', k)
      && Named(secs', s, k) == Keyed(es', k) + rest
      && Named(secs, s, k) == Keyed(es, k) + rest
      && (if |sec| < MAX_SECN then Own(secs, s, k) == Keyed(es, k) else es == [])
  }

  lemma SlotChanged(secs: seq<Section>, sec: string, x: Section, s: string, k: string) returns (rest: seq<Entry>)
    requires Fitted(secs) && x.name == WithSection(secs, sec)[SectionSlot(secs, sec)].name
    ensures var ws, i := WithSection(secs, sec), SectionSlot(secs, sec);
            SlotMoved(secs, ws[i := x], sec, ws[i].entries, x.entries, rest, s, k)
  {
    var i := FindSection(secs, sec);
    if |sec| >= MAX_SECN {
      LongSectionMissing(secs, sec, 0);
    }
    if i < |secs| {
      rest := SlotFound(secs, sec, x, s, k);
    } else {
      SlotPushed(secs, sec, x, s, k);
      rest := Named(secs, s, k);
    }
  }

  lemma SlotFound(secs: seq<Section>, sec: string, x: Section, s: string, k: string) returns (rest: seq<Entry>)
    requires Fitted(secs) && FindSection(secs, sec) < |secs| && |sec| < MAX_SECN && x.name == secs[FindSection(secs, sec)].name
    ensures var i := FindSection(secs, sec);
            var secs' := secs[i := x];
            && (!EqNoCase(s, sec) ==> Named(secs', s, k) == Named(secs, s, k) && Own(secs', s, k) == Own(secs, s, k))
            && (EqNoCase(s, sec) ==>
                  && Own(secs', s, k) == Keyed(x.entries, k) && Own(secs, s, k) == Keyed(secs[i].entries, k)
                  && Named(secs', s, k) == Keyed(x.entries, k) + rest
                  && Named(secs, s, k) == Keyed(secs[i].entries, k) + rest)
  {
    hide *;
    var i := FindSection(secs, sec);
    SlotIsFound(secs, sec, s);
    rest := Named(secs[i + 1..], s, k);
    NamedUpdate(secs, i, x, s, k);
    OwnUpdate(secs, i, x, s, k);
    PartIs(secs[i], s, k);
    PartIs(x, s, k);
    if EqNoCase(s, sec) {
      NoneNamed(secs[..i], s, k);
      OwnIs(secs, i, s, k);
      assert [] + Keyed(x.entries, k) == Keyed(x.entries, k);
      assert [] + Keyed(secs[i].entries, k) == Keyed(secs[i].entries, k);
    }
  }

  lemma PartIs(x: Section, s: string, k: string)
    ensures Part(x, s, k) == if EqNoCase(x.name, s) then Keyed(x.entries, k) else []
  {
  }

  lemma OwnIs(secs: seq<Section>, i: nat, s: string, k: string)
    requires i < |secs| && FindSection(secs, s) == i
    ensures Own(secs, s, k) == Keyed(secs[i].entries, k)
  {
    hide Keyed, SectionFrom;
  }

  // The section that sec finds is the first of its name.
  lemma SlotIsFound(secs: seq<Section>, sec: string, s: string)
    requires FindSection(secs, sec) < |secs|
    ensures var i := FindSection(secs, sec);
            && (EqNoCase(s, sec) <==> EqNoCase(secs[i].name, s))
            && (EqNoCase(s, sec) <==> FindSection(secs, s) == i)
            && (EqNoCase(s, sec) ==> forall j | 0 <= j < i :: !EqNoCase(secs[..i][j].name, s))
  {
    var i := FindSection(secs, sec);
    SectionFromFirst(secs, sec, 0);
    if EqNoCase(s, sec) {
      SectionFromCase(secs, s, sec, 0);
    }
    hide SectionFrom, Lower;
  }

  lemma SlotPushed(secs: seq<Section>, sec: string, x: Section, s: string, k: string)
    requires Fitted(secs) && FindSection(secs, sec) == |secs| && x.name == Clip(sec, MAX_SECN - 1)
    ensures var secs' := WithSection(secs, sec)[0 := x];
            && Named(secs', s, k) == Part(x, s, k) + Named(secs, s, k)
            && Own(secs', s, k) == (if EqNoCase(s, x.name) then Keyed(x.entries, k) else Own(secs, s, k))
    ensures WithSection(secs, sec)[0].entries == [] && Keyed([], k) == []
    ensures |sec| < MAX_SECN && EqNoCase(s, sec) ==> Own(secs, s, k) == []
  {
    hide Part, Keyed, Named, SectionFrom, Lower;
    var secs' := WithSection(secs, sec)[0 := x];
    assert secs' == [x] + secs;
    NamedConcat([x], secs, s, k);
    NamedOne(x, s, k);
    NoKeys(k);
    if EqNoCase(s, x.name) {
      FrontSection(x, secs, s);
    } else {
      PushedSection(x, secs, s);
    }
    if |sec| < MAX_SECN && EqNoCase(s, sec) {
      SectionFromCase(secs, s, sec, 0);
    }
  }

  lemma NoKeys(k: string)
    ensures Keyed([], k) == []
  {
  }

  lemma FrontSection(x: Section, secs: seq<Section>, s: string)
    requires EqNoCase(s, x.name)
    ensures EntriesOf([x] + secs, s) == x.entries
  {
    SectionFromIs([x] + secs, s, 0, 0);
  }

  lemma PutFitted(secs: seq<Section>, sec: string, x: Section)
    requires Fitted(secs) && x.name == WithSection(secs, sec)[SectionSlot(secs, sec)].name && AllShort(x.entries)
    ensures Fitted(WithSection(secs, sec)[SectionSlot(secs, sec) := x]) && Fitted(WithSection(secs, sec))
  {
    hide SectionFrom;
  }

  // ---- set

  /** What a set leaves of a view. */
  function AfterSet(w: View, s: string, k: string, op: Op): View
    requires op.SetOp?
  {
    if op.sec == "" || !EqNoCase(s, Clip(op.sec, MAX_SECN - 1)) then w
    else if EqNoCase(k, Clip(op.key, MAX_KEY - 1)) then
      View([Clip(op.value, MAX_VAL - 1)]
           + (if FitsBuffers(op) && w.over && w.values != [] then w.values[1..] else w.values), true, true)
    else if |op.sec| >= MAX_SECN then w.(over := false)
    else w
  }

  lemma SetView(secs: seq<Section>, op: Op, s: string, k: string)
    requires Fitted(secs) && op.SetOp?
    ensures Fitted(Do(secs, op))
    ensures ViewOf(Do(secs, op), s, k) == AfterSet(ViewOf(secs, s, k), s, k, op)
  {
    if op.sec != "" {
      var ws, i := WithSection(secs, op.sec), SectionSlot(secs, op.sec);
      var es' := PutEntry(ws[i].entries, op.key, op.value, true, false);
      var x := ws[i].(removed := false, dirty := false, entries := es');
      PutFitted(secs, op.sec, ws[i]);
      assert ws[i := ws[i]] == ws;
      KeyedPut(ws[i].entries, op.key, op.value, true, false, k);
      PutFitted(secs, op.sec, x);
      var rest := SlotChanged(secs, op.sec, x, s, k);
      SetViewAt(secs, Do(secs, op), op, s, k, ws[i].entries, rest);
    }
  }

  // The same from what is known of the two stores
  lemma SetViewAt(secs: seq<Section>, secs': seq<Section>, op: Op, s: string, k: string, es: seq<Entry>, rest: seq<Entry>)
    requires op.SetOp? && op.sec != "" && AllShort(es)
    requires SlotMoved(secs, secs', op.sec, es, PutEntry(es, op.key, op.value, true, false), rest, s, k)
    ensures ViewOf(secs', s, k) == AfterSet(ViewOf(secs, s, k), s, k, op)
  {
    KeyedPut(es, op.key, op.value, true, false, k);
    NoKeys(k);
    var m := Keyed(es, k);
    if |op.key| < MAX_KEY && m != [] {
      SetOver(m, rest, Overwrite(m[0], op.value, true, false));
    } else {
      PushOver(m, rest, NewEntry(op.key, op.value, true, false));
    }
    hide Keyed, Named, Own, PutEntry, Visibles, Lower, Clip;
    ViewIs(secs, s, k);
    ViewIs(secs', s, k);
  }

  lemma ViewIs(secs: seq<Section>, s: string, k: string)
    ensures ViewOf(secs, s, k) == View(Visibles(Named(secs, s, k)), Front(Named(secs, s, k)), Front(Own(secs, s, k)))
  {
  }

  // A visible entry over the first one, and in front of it
  lemma SetOver(m: seq<Entry>, rest: seq<Entry>, e: Entry)
    requires m != [] && Visible(e)
    ensures Visible(m[0]) ==> Visibles(m + rest) != []
    ensures Visibles([e] + m[1..] + rest)
         == [e.value] + (if Visible(m[0]) then Visibles(m + rest)[1..] else Visibles(m + rest))
    ensures Front([e] + m[1..] + rest) && Front([e] + m[1..]) && (Front(m) <==> Visible(m[0]))
  {
    hide Visibles;
    var more := m[1..] + rest;
    assert [e] + m[1..] + rest == [e] + more;
    assert m + rest == [m[0]] + more;
    VisiblesHead(e, more);
    VisiblesHead(m[0], more);
    if !Visible(m[0]) {
      assert [] + Visibles(more) == Visibles(more);
    }
  }

  lemma PushOver(m: seq<Entry>, rest: seq<Entry>, e: Entry)
    ensures Visibles([e] + m + rest) == (if Visible(e) then [e.value] else []) + Visibles(m + rest)
    ensures Front([e] + m + rest) == Front([e] + m) == Visible(e)
    ensures m == [] ==> !Front(m)
  {
    hide Visibles;
    assert [e] + m + rest == [e] + (m + rest);
    VisiblesHead(e, m + rest);
  }

  // A hidden entry over the first one, where nothing is visible
  lemma HideOver(m: seq<Entry>, rest: seq<Entry>, e: Entry)
    requires m != [] && !Visible(e) && Visibles(m + rest) == []
    ensures Visibles([e] + m[1..] + rest) == [] && !Front([e] + m[1..] + rest) && !Front([e] + m[1..])
  {
    hide Visibles;
    var more := m[1..] + rest;
    assert [e] + m[1..] + rest == [e] + more;
    assert m + rest == [m[0]] + more;
    VisiblesHead(e, more);
    VisiblesHead(m[0], more);
  }

  // ---- getters

  // The getter stores its default.
  predicate Misses(secs: seq<Section>, op: Op) {
    op.GetOp? && op.default.Some? && ViewOf(secs, op.sec, op.key).values == []
  }

  /** What a getter that stores its default leaves of a view: nothing visible comes or
      goes, but a name that was cut may end up hidden behind it. */
  function AfterMiss(w: View, s: string, k: string, op: Op): View {
    if !EqNoCase(s, Clip(op.sec, MAX_SECN - 1)) then w
    else if EqNoCase(k, Clip(op.key, MAX_KEY - 1)) then w.(front := false, over := false)
    else if |op.sec| >= MAX_SECN then w.(over := false)
    else w
  }

  lemma NoneFront(m: seq<Entry>, rest: seq<Entry>)
    requires m != [] && Visibles(m + rest) == []
    ensures !Visible(m[0])
  {
    hide Visibles;
    assert m + rest == [m[0]] + (m[1..] + rest);
    VisiblesHead(m[0], m[1..] + rest);
  }

  lemma GetViewAt(secs: seq<Section>, secs': seq<Section>, op: Op, s: string, k: string, es: seq<Entry>, rest: seq<Entry>)
    requires op.GetOp? && op.default.Some? && AllShort(es)
    requires FitsBuffers(op) && EqNoCase(s, op.sec) && EqNoCase(k, op.key) ==> Visibles(Named(secs, s, k)) == []
    requires SlotMoved(secs, secs', op.sec, es, PutEntry(es, op.key, op.default.value, false, true), rest, s, k)
    ensures ViewOf(secs', s, k) == AfterMiss(ViewOf(secs, s, k), s, k, op)
  {
    KeyedPut(es, op.key, op.default.value, false, true, k);
    NoKeys(k);
    var m := Keyed(es, k);
    var e := NewEntry(op.key, op.default.value, false, true);
    if |op.key| < MAX_KEY && m != [] {
      if Visibles(m + rest) == [] {
        NoneFront(m, rest);
        HideOver(m, rest, Overwrite(m[0], op.default.value, false, true));
      }
    } else {
      PushOver(m, rest, e);
      NoValues(Visibles(m + rest));
    }
    hide Keyed, Named, Own, PutEntry, Visibles, Lower, Clip;
    ViewIs(secs, s, k);
    ViewIs(secs', s, k);
  }

  lemma {:induction false} NamedCase(secs: seq<Section>, s: string, k: string, s': string, k': string)
    requires EqNoCase(s, s') && EqNoCase(k, k')
    ensures Named(secs, s, k) == Named(secs, s', k')
  {
    if secs != [] {
      KeyedCase(secs[0].entries, k, k');
      NamedCase(secs[1..], s, k, s', k');
    }
  }

  lemma MissView(secs: seq<Section>, op: Op, s: string, k: string)
    requires Fitted(secs) && Misses(secs, op)
    ensures Fitted(Do(secs, op))
    ensures ViewOf(Do(secs, op), s, k) == AfterMiss(ViewOf(secs, s, k), s, k, op)
  {
    GetView(secs, op.sec, op.key);
    var ws, i := WithSection(secs, op.sec), SectionSlot(secs, op.sec);
    var es' := PutEntry(ws[i].entries, op.key, op.default.value, false, true);
    var x := ws[i].(entries := es');
    PutFitted(secs, op.sec, ws[i]);
    assert ws[i := ws[i]] == ws;
    KeyedPut(ws[i].entries, op.key, op.default.value, false, true, k);
    PutFitted(secs, op.sec, x);
    var rest := SlotChanged(secs, op.sec, x, s, k);
    if EqNoCase(s, op.sec) && EqNoCase(k, op.key) {
      NamedCase(secs, s, k, op.sec, op.key);
    }
    GetViewAt(secs, Do(secs, op), op, s, k, ws[i].entries, rest);
  }

  lemma HitView(secs: seq<Section>, op: Op)
    requires op.GetOp? && !Misses(secs, op)
    ensures Do(secs, op) == secs
  {
    GetView(secs, op.sec, op.key);
  }

  // ---- unset

  /** What an unset leaves of a view. */
  function AfterUnset(w: View, s: string, k: string, op: Op): View
    requires op.UnsetOp?
  {
    if EqNoCase(s, op.sec) && EqNoCase(k, op.key) && w.front && w.values != [] then View(w.values[1..], false, false)
    else w
  }

  // Where an unset marks its entry
  predicate MarksAt(secs: seq<Section>, s: string, k: string, i: nat, p: nat, secs': seq<Section>) {
    && i <= p < |secs| && EqNoCase(secs[p].name, s)
    && (forall q | i <= q < p :: Part(secs[q], s, k) == [])
    && var j := FindEntry(secs[p].entries, k);
       && j < |secs[p].entries| && Visible(secs[p].entries[j])
       && secs' == secs[p := Marked(secs[p], k)]
  }

  function Marked(x: Section, k: string): Section
    requires FindEntry(x.entries, k) < |x.entries|
  {
    var j := FindEntry(x.entries, k);
    x.(entries := x.entries[j := MarkRemoved(x.entries[j])])
  }

  lemma {:induction false} UnsetFromView(secs: seq<Section>, s: string, k: string, i: nat)
    requires i <= |secs|
    ensures UnsetFrom(secs, s, k, i).1 <==> Front(Named(secs[i..], s, k))
    ensures if UnsetFrom(secs, s, k, i).1 then exists p :: MarksAt(secs, s, k, i, p, UnsetFrom(secs, s, k, i).0)
            else UnsetFrom(secs, s, k, i).0 == secs
    decreases |secs| - i
  {
    hide *;
    UnsetStep(secs, s, k, i);
    if i < |secs| && Part(secs[i], s, k) == [] {
      UnsetFromView(secs, s, k, i + 1);
      if UnsetFrom(secs, s, k, i + 1).1 {
        var p: nat :| MarksAt(secs, s, k, i + 1, p, UnsetFrom(secs, s, k, i + 1).0);
        MarksEarlier(secs, s, k, i, p, UnsetFrom(secs, s, k, i + 1).0);
      }
    }
  }

  lemma MarksEarlier(secs: seq<Section>, s: string, k: string, i: nat, p: nat, secs': seq<Section>)
    requires i < |secs| && Part(secs[i], s, k) == [] && MarksAt(secs, s, k, i + 1, p, secs')
    ensures MarksAt(secs, s, k, i, p, secs')
  {
    hide Part, EntryFrom;
  }

  // One section of the walk
  lemma UnsetStep(secs: seq<Section>, s: string, k: string, i: nat)
    requires i <= |secs|
    ensures i == |secs| ==> UnsetFrom(secs, s, k, i) == (secs, false) && !Front(Named(secs[i..], s, k))
    ensures i < |secs| && Part(secs[i], s, k) == [] ==>
              UnsetFrom(secs, s, k, i) == UnsetFrom(secs, s, k, i + 1)
              && Named(secs[i..], s, k) == Named(secs[i + 1..], s, k)
    ensures i < |secs| && Part(secs[i], s, k) != [] ==>
              var (secs', ok) := UnsetFrom(secs, s, k, i);
              && (ok <==> Front(Named(secs[i..], s, k)))
              && (if ok then MarksAt(secs, s, k, i, i, secs') else secs' == secs)
  {
    if i == |secs| {
      assert secs[i..] == [];
    } else {
      NamedDrop(secs, i, s, k);
      PartIs(secs[i], s, k);
      KeyedFirst(secs[i].entries, k);
      hide Part, Keyed, Named, EntryFrom, Lower;
      NoEntries(Named(secs[i + 1..], s, k));
    }
  }

  lemma NamedDrop(secs: seq<Section>, i: nat, s: string, k: string)
    requires i < |secs|
    ensures Named(secs[i..], s, k) == Part(secs[i], s, k) + Named(secs[i + 1..], s, k)
  {
    hide Part;
    assert secs[i..][0] == secs[i] && secs[i..][1..] == secs[i + 1..];
  }

  lemma {:induction false} NoParts(secs: seq<Section>, s: string, k: string)
    requires forall q | 0 <= q < |secs| :: Part(secs[q], s, k) == []
    ensures Named(secs, s, k) == []
  {
    hide Part;
    if secs != [] {
      NoParts(secs[1..], s, k);
    }
  }

  lemma PartCase(x: Section, s: string, k: string, s': string, k': string)
    requires EqNoCase(s, s') && EqNoCase(k, k')
    ensures Part(x, s, k) == Part(x, s', k')
  {
    KeyedCase(x.entries, k, k');
  }

  // The entries of (s, k) after an unset of another key, or another section
  lemma UnsetElsewhere(secs: seq<Section>, op: Op, p: nat, s: string, k: string)
    requires op.UnsetOp? && MarksAt(secs, op.sec, op.key, 0, p, Do(secs, op))
    requires !(EqNoCase(s, op.sec) && EqNoCase(k, op.key))
    ensures Named(Do(secs, op), s, k) == Named(secs, s, k) && Own(Do(secs, op), s, k) == Own(secs, s, k)
  {
    var x := secs[p];
    var j := FindEntry(x.entries, op.key);
    var e := x.entries[j];
    var x' := Marked(x, op.key);
    EntryFromCase(x.entries, op.key, e.key, 0);
    KeyedReplace(x.entries, j, MarkRemoved(e), k);
    CaseShift(e.key, op.key, k);
    CaseShift(x.name, op.sec, s);
    hide Keyed, Named, SectionFrom, EntryFrom, Lower;
    NamedUpdate(secs, p, x', s, k);
    OwnUpdate(secs, p, x', s, k);
    if FindSection(secs, s) == p {
      OwnIs(secs, p, s, k);
    }
    PartIs(x, s, k);
    PartIs(x', s, k);
  }

  lemma MarkedKeyed(x: Section, key: string, k: string) returns (e: Entry)
    requires FindEntry(x.entries, key) < |x.entries| && EqNoCase(k, key)
    ensures e == x.entries[FindEntry(x.entries, key)]
    ensures Keyed(x.entries, k) != [] && Keyed(x.entries, k)[0] == e
    ensures Keyed(Marked(x, key).entries, k) == [MarkRemoved(e)] + Keyed(x.entries, k)[1..]
  {
    var j := FindEntry(x.entries, key);
    e := x.entries[j];
    EntryFromCase(x.entries, key, e.key, 0);
    KeyedReplace(x.entries, j, MarkRemoved(e), k);
    CaseShift(e.key, key, k);
    hide Keyed, EntryFrom, Lower;
  }

  lemma NoPartsBefore(secs: seq<Section>, op: Op, p: nat, s: string, k: string)
    requires op.UnsetOp? && MarksAt(secs, op.sec, op.key, 0, p, Do(secs, op))
    requires EqNoCase(s, op.sec) && EqNoCase(k, op.key)
    ensures EqNoCase(secs[p].name, s) && Named(secs[..p], s, k) == []
    ensures forall q | 0 <= q < p :: Part(secs[..p][q], s, k) == []
    ensures FindEntry(secs[p].entries, op.key) < |secs[p].entries| && Do(secs, op) == secs[p := Marked(secs[p], op.key)]
    ensures Visible(secs[p].entries[FindEntry(secs[p].entries, op.key)])
  {
    forall q | 0 <= q < p
      ensures Part(secs[..p][q], s, k) == []
    {
      PartCase(secs[q], s, k, op.sec, op.key);
    }
    hide Part, Named, EntryFrom, Lower;
    NoParts(secs[..p], s, k);
  }

  // ... and of the name itself
  lemma UnsetHere(secs: seq<Section>, op: Op, p: nat, s: string, k: string) returns (e: Entry, rest: seq<Entry>)
    requires op.UnsetOp? && MarksAt(secs, op.sec, op.key, 0, p, Do(secs, op))
    requires EqNoCase(s, op.sec) && EqNoCase(k, op.key)
    ensures Visible(e) && Named(secs, s, k) == [e] + rest && Named(Do(secs, op), s, k) == [MarkRemoved(e)] + rest
    ensures !Front(Own(Do(secs, op), s, k))
  {
    NoPartsBefore(secs, op, p, s, k);
    hide *;
    var x, x' := secs[p], Marked(secs[p], op.key);
    e := MarkedKeyed(x, op.key, k);
    MarkedName(x, op.key);
    NamedUpdate(secs, p, x', s, k);
    PartIs(x, s, k);
    PartIs(x', s, k);
    var m, behind := Keyed(x.entries, k), Named(secs[p + 1..], s, k);
    rest := m[1..] + behind;
    Headed(m, behind);
    Headed([MarkRemoved(e)] + m[1..], behind);
    FrontIs(MarkRemoved(e), m[1..]);
    OwnAfter(secs, op, p, x', s, k);
  }

  lemma MarkedName(x: Section, k: string)
    requires FindEntry(x.entries, k) < |x.entries|
    ensures Marked(x, k).name == x.name
  {
    hide EntryFrom;
  }

  lemma Headed(m: seq<Entry>, behind: seq<Entry>)
    requires m != []
    ensures [] + m + behind == [m[0]] + (m[1..] + behind)
  {
  }

  lemma FrontIs(e: Entry, es: seq<Entry>)
    ensures !Front([MarkRemoved(e)] + es)
    ensures ([MarkRemoved(e)] + es)[1..] == es
  {
  }

  lemma OwnAfter(secs: seq<Section>, op: Op, p: nat, x': Section, s: string, k: string)
    requires p < |secs| && x'.name == secs[p].name && EqNoCase(secs[p].name, s)
    requires forall q | 0 <= q < p :: Part(secs[..p][q], s, k) == []
    requires !Front(Keyed(x'.entries, k))
    ensures !Front(Own(secs[p := x'], s, k))
  {
    OwnUpdate(secs, p, x', s, k);
    SectionFromFirst(secs, s, 0);
    var i := FindSection(secs, s);
    if i != p {
      OwnIs(secs, i, s, k);
      assert Part(secs[..p][i], s, k) == [];
    }
  }

  lemma UnsetView(secs: seq<Section>, op: Op, s: string, k: string)
    requires Fitted(secs) && op.UnsetOp?
    ensures Unset(secs, op.sec, op.key).1 <==> ViewOf(secs, op.sec, op.key).front
    ensures Fitted(Do(secs, op))
    ensures ViewOf(Do(secs, op), s, k) == AfterUnset(ViewOf(secs, s, k), s, k, op)
  {
    UnsetFromView(secs, op.sec, op.key, 0);
    assert secs[0..] == secs;
    if EqNoCase(s, op.sec) && EqNoCase(k, op.key) {
      NamedCase(secs, s, k, op.sec, op.key);
    }
    if Unset(secs, op.sec, op.key).1 {
      var p :| MarksAt(secs, op.sec, op.key, 0, p, Do(secs, op));
      UnsetFits(secs, op, p);
      if EqNoCase(s, op.sec) && EqNoCase(k, op.key) {
        var e, rest := UnsetHere(secs, op, p, s, k);
        VisiblesHead(e, rest);
        VisiblesHead(MarkRemoved(e), rest);
        NoValues(Visibles(rest));
      } else {
        UnsetElsewhere(secs, op, p, s, k);
      }
    }
  }

  lemma UnsetFits(secs: seq<Section>, op: Op, p: nat)
    requires Fitted(secs) && op.UnsetOp? && MarksAt(secs, op.sec, op.key, 0, p, Do(secs, op))
    ensures Fitted(Do(secs, op))
  {
    hide EntryFrom, Part;
  }
}
