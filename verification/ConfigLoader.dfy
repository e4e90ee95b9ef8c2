/** rss_config_load: the `fgets` loop over a fixed line buffer, and what the
    store it builds answers. */
module ConfigLoader {
  import opened Basics
  import opened CText
  import opened ConfigLines
  import opened ConfigMeaning
  import opened ConfigStore
  import opened ConfigStoreFacts
  import opened ConfigStoreInv

  // ---- the loader on lines

  datatype Loading = Loading(sec: string, secs: seq<Section>)

  function StoreStep(st: Loading, raw: string): Loading {
    match ParseLine(raw)
    case Inert => st
    case Header(sec) => st.(sec := sec)
    case Bind(key, val) => st.(secs := Put(st.secs, st.sec, key, val, false, false))
  }

  function StoreOf(st: Loading, lines: seq<string>): Loading
    decreases |lines|
  {
    if lines == [] then st else StoreOf(StoreStep(st, lines[0]), lines[1..])
  }

  const NOTHING := Loading("", [])

  function LoadText(text: string): seq<Section> {
    StoreOf(NOTHING, Lines(text)).secs
  }

  // ---- the store answers the meaning of the text

  // What a load leaves behind: nothing dirty, removed or defaulted
  predicate Loadable(secs: seq<Section>) {
    && NamesDistinct(secs)
    && forall i | 0 <= i < |secs| :: |secs[i].name| < MAX_SECN && !secs[i].removed && AllPlain(secs[i].entries)
  }

  predicate AllPlain(es: seq<Entry>) {
    forall j | 0 <= j < |es| :: |es[j].key| < MAX_KEY && Visible(es[j]) && !es[j].dirty
  }

  ghost predicate Agrees(st: Loading, m: LoadState) {
    && st.sec == m.sec && |st.sec| < MAX_SECN && Loadable(st.secs)
    && forall s, k :: FirstValue(st.secs, s, k) == MapValue(m.binds, (Lower(s), Lower(k)))
  }

  function FirstValue(secs: seq<Section>, s: string, k: string): Option<string> {
    match EntryOf(secs, s, k)
    case None => None
    case Some(e) => Some(e.value)
  }

  function MapValue(binds: map<Name, string>, n: Name): Option<string> {
    if n in binds then Some(ValueIn(binds[n])) else None
  }

  // A key that is stored, cut to its buffer or not
  lemma PutPlainAt(es: seq<Entry>, key: string, value: string, k: string)
    requires AllPlain(es)
    ensures AllPlain(PutEntry(es, key, value, false, false))
    ensures var o := EntryAt(PutEntry(es, key, value, false, false), k);
            if Lower(k) == Lower(Clip(key, MAX_KEY - 1)) then o.Some? && o.value.value == Clip(value, MAX_VAL - 1)
            else o == EntryAt(es, k)
  {
    if |key| < MAX_KEY {
      PutEntryAt(es, key, value, false, false, k);
    } else {
      LongKeyMissing(es, key, 0);
      EntryAtPush(es, NewEntry(key, value, false, false), k);
    }
  }

  lemma {:induction false} LongKeyMissing(es: seq<Entry>, key: string, i: nat)
    requires i <= |es| && AllPlain(es) && |key| >= MAX_KEY
    ensures EntryFrom(es, key, i) == |es|
    decreases |es| - i
  {
    if i < |es| {
      assert |Lower(es[i].key)| != |Lower(key)|;
      LongKeyMissing(es, key, i + 1);
    }
  }

  lemma PutLoadable(secs: seq<Section>, sec: string, key: string, value: string)
    requires Loadable(secs) && |sec| < MAX_SECN
    ensures Loadable(Put(secs, sec, key, value, false, false))
  {
    var ws, i := WithSection(secs, sec), SectionSlot(secs, sec);
    if FindSection(secs, sec) == |secs| {
      SectionFromFirst(secs, sec, 0);
      assert forall j | 1 <= j < |ws| :: ws[j] == secs[j - 1];
    }
    assert Loadable(ws);
    PutPlainAt(ws[i].entries, key, value, "");
    var secs' := Put(secs, sec, key, value, false, false);
    assert forall j | 0 <= j < |ws| :: secs'[j].name == ws[j].name;
  }

  lemma PlainEntries(secs: seq<Section>, sec: string)
    requires Loadable(secs)
    ensures AllPlain(EntriesOf(secs, sec))
  {
  }

  lemma StepAgrees(st: Loading, m: LoadState, raw: string)
    requires Agrees(st, m)
    ensures Agrees(StoreStep(st, raw), Step(m, raw))
  {
    match ParseLine(raw)
    case Inert =>
    case Header(sec) =>
    case Bind(key, val) => BindAgrees(st, m, raw, key, val);
  }

  lemma BindAgrees(st: Loading, m: LoadState, raw: string, key: string, val: string)
    requires Agrees(st, m) && ParseLine(raw) == Bind(key, val)
    ensures Agrees(StoreStep(st, raw), Step(m, raw))
  {
    PutLoadable(st.secs, st.sec, key, val);
    forall s, k
      ensures FirstValue(StoreStep(st, raw).secs, s, k) == MapValue(Step(m, raw).binds, (Lower(s), Lower(k)))
    {
      assert FirstValue(st.secs, s, k) == MapValue(m.binds, (Lower(s), Lower(k)));
      PutEntries(st.secs, st.sec, key, val, false, false, s);
      PlainEntries(st.secs, st.sec);
      PutPlainAt(EntriesOf(st.secs, st.sec), key, val, k);
      if EqNoCase(s, st.sec) {
        SectionFromCase(st.secs, s, st.sec, 0);
      }
    }
  }

  lemma {:induction false} StoreAgrees(st: Loading, m: LoadState, lines: seq<string>)
    requires Agrees(st, m)
    ensures Agrees(StoreOf(st, lines), Loaded(m, lines))
    decreases |lines|
  {
    if lines != [] {
      StepAgrees(st, m, lines[0]);
      StoreAgrees(StoreStep(st, lines[0]), Step(m, lines[0]), lines[1..]);
    }
  }

  lemma {:induction false} VisiblePlain(es: seq<Entry>, key: string, i: nat)
    requires i <= |es| && AllPlain(es)
    ensures VisibleFrom(es, key, i) == EntryFrom(es, key, i)
    decreases |es| - i
  {
    if i < |es| {
      VisiblePlain(es, key, i + 1);
    }
  }

  /** Loading a file gives its meaning: for every section and key, a value
      lookup in the loaded store answers what the plain map says. */
  lemma LoadAnswersMeaning(text: string, sec: string, key: string)
    ensures Get(LoadText(text), sec, key)
         == if (Lower(sec), Lower(key)) in Meaning(text) then Some(Meaning(text)[(Lower(sec), Lower(key))]) else None
  {
    EmptyAgrees();
    StoreAgrees(NOTHING, EMPTY, Lines(text));
    var secs, m := LoadText(text), Loaded(EMPTY, Lines(text));
    assert FirstValue(secs, sec, key) == MapValue(m.binds, (Lower(sec), Lower(key)));
    GetFromIs(secs, sec, key, 0);
    PlainEntries(secs, sec);
    VisiblePlain(EntriesOf(secs, sec), key, 0);
  }

  lemma EmptyAgrees()
    ensures Agrees(NOTHING, EMPTY)
  {
  }

  // ---- files whose keys fit

  // Every key the loader binds fits its buffer
  predicate KeysFit(lines: seq<string>) {
    forall i | 0 <= i < |lines| && ParseLine(lines[i]).Bind? :: |ParseLine(lines[i]).key| < MAX_KEY
  }

  lemma {:induction false} StoreInv(st: Loading, lines: seq<string>)
    requires Inv(st.secs) && Loadable(st.secs) && |st.sec| < MAX_SECN && KeysFit(lines)
    ensures Inv(StoreOf(st, lines).secs) && Loadable(StoreOf(st, lines).secs)
    decreases |lines|
  {
    if lines != [] {
      var p := ParseLine(lines[0]);
      if p.Bind? {
        PutPlainOk(st.secs, st.sec, p.key, p.val);
        PutLoadable(st.secs, st.sec, p.key, p.val);
      }
      StoreInv(StoreStep(st, lines[0]), lines[1..]);
    }
  }

  lemma PutPlainOk(secs: seq<Section>, sec: string, key: string, value: string)
    requires Inv(secs) && Loadable(secs) && |sec| < MAX_SECN && |key| < MAX_KEY
    ensures Inv(Put(secs, sec, key, value, false, false))
  {
    WithSectionOk(secs, sec);
    var ws, i := WithSection(secs, sec), SectionSlot(secs, sec);
    assert SectionOk(ws[i]);
    PutEntryOk(ws[i].entries, key, value, false, false);
    UpdateOk(ws, i, ws[i].(entries := PutEntry(ws[i].entries, key, value, false, false)));
  }

  /** A file whose keys fit loads into a store that keeps the invariant, with
      nothing to save. */
  lemma LoadKeepsInv(text: string)
    requires KeysFit(Lines(text))
    ensures Inv(LoadText(text)) && Loadable(LoadText(text)) && !HasDirty(LoadText(text))
  {
    StoreInv(NOTHING, Lines(text));
  }
}
