/** The calls on a store as one kind of step, and what a getter's stored default does
    where names are unique. */
module ConfigGetters {
  import opened Basics
  import opened CText
  import opened ConfigLines
  import opened ConfigStore
  import opened ConfigStoreFacts
  import opened ConfigStoreInv

  // ---- one operation on the store

  datatype Op =
    | SetOp(sec: string, key: string, value: string)
    | UnsetOp(sec: string, key: string)
    | GetOp(sec: string, key: string, default: Option<string>)

  /** What the caller of one operation sees, with has_dirty asked right after. */
  datatype Seen = Seen(answer: Option<string>, ok: bool, dirty: bool)

  function Do(secs: seq<Section>, op: Op): seq<Section> {
    match op
    case SetOp(s, k, v) => Set(secs, s, k, v)
    case UnsetOp(s, k) => Unset(secs, s, k).0
    case GetOp(s, k, d) => GetStr(secs, s, k, d).0
  }

  function See(secs: seq<Section>, op: Op): Seen {
    var dirty := HasDirty(Do(secs, op));
    match op
    case SetOp(s, k, v) => Seen(None, s != "", dirty)
    case UnsetOp(s, k) => Seen(None, Unset(secs, s, k).1, dirty)
    case GetOp(s, k, d) => Seen(GetStr(secs, s, k, d).1, true, dirty)
  }

  // Names that fit the buffers they are stored in
  predicate FitsBuffers(op: Op) {
    |op.sec| < MAX_SECN && |op.key| < MAX_KEY
  }

  // ---- runs

  // What a run shows for the operations that are kept
  function Shown(secs: seq<Section>, ops: seq<Op>, kept: seq<bool>): seq<Seen>
    requires |kept| == |ops|
    decreases |ops|
  {
    if ops == [] then []
    else
      (if kept[0] then [See(secs, ops[0])] else []) + Shown(Do(secs, ops[0]), ops[1..], kept[1..])
  }

  // The run with the other operations left out
  function Kept(ops: seq<Op>, kept: seq<bool>): seq<Op>
    requires |kept| == |ops|
  {
    if ops == [] then []
    else (if kept[0] then [ops[0]] else []) + Kept(ops[1..], kept[1..])
  }

  function All(ops: seq<Op>): (r: seq<bool>)
    ensures |r| == |ops|
  {
    seq(|ops|, _ => true)
  }

  // ---- stores no caller can tell apart

  ghost predicate Alike(a: seq<Section>, b: seq<Section>) {
    && (forall s, k :: Look(a, s, k) == Look(b, s, k))
    && (forall s :: OwesHeader(a, s) <==> OwesHeader(b, s))
  }

  // ---- getters change nothing a caller can see

  lemma PutDefaultOwes(secs: seq<Section>, sec: string, key: string, value: string, s: string)
    requires |sec| < MAX_SECN
    ensures OwesHeader(Put(secs, sec, key, value, false, true), s) <==> OwesHeader(secs, s)
  {
    var ws, i := WithSection(secs, sec), SectionSlot(secs, sec);
    WithSectionFinds(secs, sec, s);
    SectionFromCase(ws, sec, ws[i].name, 0);
    EntriesOfUpdate(ws, i, ws[i].(entries := PutEntry(ws[i].entries, key, value, false, true)), s);
    if FindSection(secs, sec) == |secs| {
      if EqNoCase(ws[0].name, s) {
        CaseShift(ws[0].name, s, sec);
        SectionFromCase(secs, sec, s, 0);
        SectionFromIs(ws, s, 0, 0);
      } else {
        PushedSection(ws[0], secs, s);
      }
    }
  }

  lemma GetterHides(secs: seq<Section>, sec: string, key: string, default: Option<string>)
    requires Inv(secs) && |sec| < MAX_SECN && |key| < MAX_KEY
    ensures Inv(GetStr(secs, sec, key, default).0)
    ensures Alike(secs, GetStr(secs, sec, key, default).0)
  {
    GetIsLook(secs, sec, key);
    if Get(secs, sec, key).None? && default.Some? {
      PutDefaultOk(secs, sec, key, default.value);
      var secs' := Put(secs, sec, key, default.value, false, true);
      forall s, k
        ensures Look(secs, s, k) == Look(secs', s, k)
      {
        PutAt(secs, sec, key, default.value, false, true, s, k);
        if EqNoCase(s, sec) && EqNoCase(k, key) {
          DefaultInvisible(secs, sec, key, default.value, s, k);
        }
      }
      forall s
        ensures OwesHeader(secs, s) <==> OwesHeader(secs', s)
      {
        PutDefaultOwes(secs, sec, key, default.value, s);
      }
    }
  }

  lemma DefaultInvisible(secs: seq<Section>, sec: string, key: string, value: string, s: string, k: string)
    requires Inv(secs) && !Look(secs, sec, key).Bound?
    requires EqNoCase(s, sec) && EqNoCase(k, key)
    ensures SlotOf(Some(PutTo(EntryOf(secs, sec, key), key, value, false, true))) == Look(secs, s, k)
  {
    SectionFromCase(secs, s, sec, 0);
    EntryFromCase(EntriesOf(secs, sec), k, key, 0);
  }

  /** A getter's answer: the bound value, or its own default, stored cut to the
      value buffer. */
  lemma GetterAnswer(secs: seq<Section>, sec: string, key: string, default: Option<string>)
    requires Inv(secs) && |sec| < MAX_SECN && |key| < MAX_KEY
    ensures GetStr(secs, sec, key, default).1
         == match Look(secs, sec, key)
            case Bound(v, d) => Some(v)
            case _ => if default.None? then None else Some(Clip(default.value, MAX_VAL - 1))
  {
    GetIsLook(secs, sec, key);
    if Get(secs, sec, key).None? && default.Some? {
      PutAt(secs, sec, key, default.value, false, true, sec, key);
      WithSectionFinds(secs, sec, sec);
      PutEntries(secs, sec, key, default.value, false, true, sec);
      var secs' := Put(secs, sec, key, default.value, false, true);
      var ws, i := WithSection(secs, sec), SectionSlot(secs, sec);
      PutAtSection(secs, sec, ws[i], sec);
      assert secs'[i].entries == PutEntry(EntriesOf(secs, sec), key, default.value, false, true);
      assert EntriesOf(secs', sec) == secs'[i].entries;
    }
  }

  // Setting a key puts a removed section back.
  lemma SetOwes(secs: seq<Section>, sec: string, key: string, value: string, s: string)
    requires 0 < |sec| < MAX_SECN
    ensures OwesHeader(Set(secs, sec, key, value), s) <==> !EqNoCase(s, sec) && OwesHeader(secs, s)
  {
    var ws, i := WithSection(secs, sec), SectionSlot(secs, sec);
    WithSectionFinds(secs, sec, s);
    SectionFromCase(ws, sec, ws[i].name, 0);
    var s' := ws[i].(removed := false, dirty := false, entries := PutEntry(ws[i].entries, key, value, true, false));
    EntriesOfUpdate(ws, i, s', s);
    if EqNoCase(s, sec) {
      SectionFromCase(ws, s, sec, 0);
    } else {
      CaseShift(ws[i].name, sec, s);
      if FindSection(secs, sec) == |secs| {
        PushedSection(ws[0], secs, s);
      }
    }
  }

  lemma DoOk(secs: seq<Section>, op: Op)
    requires Inv(secs) && FitsBuffers(op)
    ensures Inv(Do(secs, op))
  {
    match op
    case SetOp(s, k, v) => SetOk(secs, s, k, v);
    case UnsetOp(s, k) => UnsetOk(secs, s, k);
    case GetOp(s, k, d) => GetterHides(secs, s, k, d);
  }

  // ---- keys that do not fit

  /** Why the keys must fit: a getter for a 64-byte key stores its default under
      the first 63 bytes, in front of a key of that name that is set, and an
      unset of that key then finds only the default. */
  lemma LongKeyGetterIsVisible()
    ensures var k63, k64 := Repeat('a', 63), Repeat('a', 64);
            var secs := Set([], "s", k63, "v");
            && Unset(secs, "s", k63).1
            && !Unset(GetStr(secs, "s", k64, Some("d")).0, "s", k63).1
  {
    var k63, k64 := Repeat('a', 63), Repeat('a', 64);
    assert Clip(k63, 63) == k63 && Clip(k64, 63) == k63;
    var e := Entry(k63, "v", true, false, false);
    var secs := Set([], "s", k63, "v");
    assert WithSection([], "s") == [Section("s", false, false, [])];
    assert PutEntry([], k63, "v", true, false) == [e];
    assert secs == [Section("s", false, false, [e])];
    assert |Lower(k64)| != |Lower(k63)|;
    var d := Entry(k63, "d", false, true, false);
    assert EntryFrom([e], k64, 0) == 1;
    assert VisibleFrom([e], k64, 0) == 1;
    assert PutEntry([e], k64, "d", false, true) == [d, e];
    assert Put(secs, "s", k64, "d", false, true) == [Section("s", false, false, [d, e])];
    assert GetFrom(secs, "s", k64, 0) == GetFrom(secs, "s", k64, 1);
    assert GetStr(secs, "s", k64, Some("d")).0 == [Section("s", false, false, [d, e])];
  }
}
