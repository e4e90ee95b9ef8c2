/** Several daemons over one configuration file. Each loads it once, edits its
    own copy, and saves under the lock: take the lock, read the file, replace it
    with the edited text in one step, release. */
module ConfigDaemons {
  import opened Basics
  import opened CText
  import opened ConfigLines
  import opened ConfigValues
  import opened ConfigMeaning
  import opened ConfigStore
  import opened ConfigStoreFacts
  import opened ConfigStoreInv
  import opened ConfigGetters
  import opened ConfigLoader
  import opened ConfigSave
  import opened ConfigSaveMeaning
  import opened ConfigCommit
  import opened ConfigClean

  // ---- the system

  // Where a daemon stands: not started, between API calls, or inside a save
  datatype Phase = Down | Idle | Locked | Holding(text: string) | Written

  datatype Daemon = Daemon(secs: seq<Section>, phase: Phase)

  datatype Sys = Sys(file: string, lock: Option<nat>, ds: seq<Daemon>)

  datatype Act =
    | Start(d: nat)
    | Local(d: nat, op: Op)
    | Remove(d: nat, sec: string)
    | Lock(d: nat)
    | Read(d: nat)
    | Replace(d: nat, ok: bool)
    | Unlock(d: nat)

  // The calls a daemon makes: it sets canonical names, to any one line
  predicate Proper(op: Op) {
    FitsBuffers(op) && (op.SetOp? ==> GoodSection(op.sec) && GoodKey(op.key) && OneLine(op.value))
  }

  // Only a save with something to write goes as far as the lock.
  predicate Enabled(s: Sys, a: Act) {
    a.d < |s.ds| &&
    match a
    case Start(d) => s.ds[d].phase == Down
    case Local(d, op) => s.ds[d].phase == Idle && Proper(op)
    case Remove(d, sec) => s.ds[d].phase == Idle
    case Lock(d) => s.ds[d].phase == Idle && CollectDirty(s.ds[d].secs) != [] && s.lock == None
    case Read(d) => s.ds[d].phase == Locked
    case Replace(d, ok) => s.ds[d].phase.Holding?
    case Unlock(d) => s.ds[d].phase == Written
  }

  function Next(s: Sys, a: Act): (s': Sys)
    requires Enabled(s, a)
    ensures |s'.ds| == |s.ds|
  {
    var d := s.ds[a.d];
    match a
    case Start(i) => s.(ds := s.ds[i := Daemon(LoadText(s.file), Idle)])
    case Local(i, op) => s.(ds := s.ds[i := d.(secs := Do(d.secs, op))])
    case Remove(i, sec) => s.(ds := s.ds[i := d.(secs := RemoveSection(d.secs, sec).0)])
    case Lock(i) => s.(lock := Some(i), ds := s.ds[i := d.(phase := Locked)])
    case Read(i) => s.(ds := s.ds[i := d.(phase := Holding(s.file))])
    case Replace(i, ok) =>
      if ok then
        s.(file := SurgicalText(d.phase.text, CollectDirty(d.secs)),
           ds := s.ds[i := Daemon(ClearDirty(d.secs), Written)])
      else s.(ds := s.ds[i := d.(phase := Written)])
    case Unlock(i) => s.(lock := None, ds := s.ds[i := d.(phase := Idle)])
  }

  function Init(seed: string, n: nat): Sys {
    Sys(seed, None, seq(n, _ => Daemon([], Down)))
  }

  predicate Runs(s: Sys, acts: seq<Act>)
    decreases |acts|
  {
    acts == [] || (Enabled(s, acts[0]) && Runs(Next(s, acts[0]), acts[1..]))
  }

  function After(s: Sys, acts: seq<Act>): Sys
    requires Runs(s, acts)
    decreases |acts|
  {
    if acts == [] then s else After(Next(s, acts[0]), acts[1..])
  }

  // ---- what the owner of a name did, read off the run alone

  // The value the owner left the name at, and the one at its last save
  datatype Ledger = Ledger(current: Option<string>, saved: Option<string>)

  function Note(l: Ledger, a: Act, w: nat, s: string, k: string): Ledger {
    if a.d != w then l
    else
      match a
      case Local(_, SetOp(sec, key, v)) =>
        if sec != "" && EqNoCase(s, sec) && EqNoCase(k, key) then l.(current := Some(v)) else l
      case Local(_, UnsetOp(sec, key)) =>
        if EqNoCase(s, sec) && EqNoCase(k, key) then l.(current := None) else l
      case Remove(_, sec) => if sec != "" && EqNoCase(s, sec) then l.(current := None) else l
      case Replace(_, true) => l.(saved := l.current)
      case _ => l
  }

  function Noted(l: Ledger, acts: seq<Act>, w: nat, s: string, k: string): Ledger
    decreases |acts|
  {
    if acts == [] then l else Noted(Note(l, acts[0], w, s, k), acts[1..], w, s, k)
  }

  // The action sets or takes out the name (s, k)
  predicate Writes(a: Act, s: string, k: string) {
    match a
    case Local(_, SetOp(sec, key, v)) => EqNoCase(s, sec) && EqNoCase(k, key)
    case Local(_, UnsetOp(sec, key)) => EqNoCase(s, sec) && EqNoCase(k, key)
    case Remove(_, sec) => EqNoCase(s, sec)
    case _ => false
  }

  // What is set survives every save.
  predicate Lasting(a: Act) {
    a.Local? && a.op.SetOp? ==> GoodValue(a.op.value)
  }

  // Nobody but w writes the name, and only to values that last; with w no daemon at
  // all, nobody does
  predicate OwnedBy(acts: seq<Act>, w: nat, s: string, k: string) {
    forall i | 0 <= i < |acts| && Writes(acts[i], s, k) :: acts[i].d == w && Lasting(acts[i])
  }

  // ---- the invariant

  function Value(secs: seq<Section>, s: string, k: string): Option<string> {
    match Look(secs, s, k)
    case Bound(v, d) => Some(v)
    case _ => None
  }

  predicate Pending(secs: seq<Section>, s: string, k: string) {
    LookDirty(secs, s, k) || OwesHeader(secs, s)
  }

  predicate InSave(p: Phase) {
    p.Locked? || p.Holding? || p.Written?
  }

  // One daemon, whoever owns the name
  predicate Sound(sys: Sys, i: nat)
    requires i < |sys.ds|
  {
    var d := sys.ds[i];
    && (d.phase != Down ==> Inv(d.secs) && Clean(d.secs))
    && (InSave(d.phase) ==> sys.lock == Some(i))
    && (d.phase.Holding? ==> d.phase.text == sys.file)
  }

  predicate OwnerKnows(d: Daemon, l: Ledger, s: string, k: string) {
    if d.phase == Down then l.current == l.saved
    else
      && Value(d.secs, s, k) == l.current
      && (if LookDirty(d.secs, s, k) then l.current.Some? ==> GoodValue(l.current.value) else l.current == l.saved)
  }

  predicate Consistent(sys: Sys, l: Ledger, w: nat, s: string, k: string) {
    && KeysFit(Lines(sys.file))
    && MeaningAt(sys.file, (Lower(s), Lower(k))) == l.saved
    && (forall i | 0 <= i < |sys.ds| :: Sound(sys, i))
    && (forall i | 0 <= i < |sys.ds| && i != w && sys.ds[i].phase != Down :: !Pending(sys.ds[i].secs, s, k))
    && (w < |sys.ds| ==> OwnerKnows(sys.ds[w], l, s, k))
  }

  // ---- one daemon's step

  lemma ValueIsGet(secs: seq<Section>, s: string, k: string)
    requires Inv(secs)
    ensures Value(secs, s, k) == Get(secs, s, k)
  {
    GetIsLook(secs, s, k);
  }

  // A daemon that has just loaded agrees with the file.
  lemma Loads(text: string, s: string, k: string)
    requires KeysFit(Lines(text))
    ensures Inv(LoadText(text)) && Clean(LoadText(text))
    ensures Value(LoadText(text), s, k) == MeaningAt(text, (Lower(s), Lower(k)))
    ensures !Pending(LoadText(text), s, k)
  {
    LoadKeepsInv(text);
    LoadClean(LoadText(text));
    LoadAnswersMeaning(text, s, k);
    ValueIsGet(LoadText(text), s, k);
    HasDirtyIs(LoadText(text));
  }

  lemma SetEffect(secs: seq<Section>, sec: string, key: string, v: string, s: string, k: string)
    requires Proper(SetOp(sec, key, v))
    ensures var secs' := Set(secs, sec, key, v);
            && (OwesHeader(secs', s) ==> OwesHeader(secs, s))
            && if sec != "" && EqNoCase(s, sec) && EqNoCase(k, key) then Look(secs', s, k) == Bound(Clip(v, MAX_VAL - 1), true)
               else Look(secs', s, k) == Look(secs, s, k)
  {
    if sec != "" {
      SetAt(secs, sec, key, v, s, k);
      SetOwes(secs, sec, key, v, s);
    }
  }

  lemma UnsetEffect(secs: seq<Section>, sec: string, key: string, s: string, k: string)
    requires Inv(secs)
    ensures var secs' := Unset(secs, sec, key).0;
            && (OwesHeader(secs', s) <==> OwesHeader(secs, s))
            && (Look(secs', s, k) == Look(secs, s, k) || Look(secs', s, k) == TakenOff(true))
            && if EqNoCase(s, sec) && EqNoCase(k, key) then !Look(secs', s, k).Bound?
               else Look(secs', s, k) == Look(secs, s, k)
  {
    UnsetAt(secs, sec, key, s, k);
    UnsetOk(secs, sec, key);
    if EqNoCase(s, sec) && EqNoCase(k, key) {
      SectionFromCase(secs, s, sec, 0);
      EntryFromCase(EntriesOf(secs, sec), k, key, 0);
    }
  }

  lemma GetEffect(secs: seq<Section>, sec: string, key: string, d: Option<string>, s: string, k: string)
    requires Inv(secs) && |sec| < MAX_SECN && |key| < MAX_KEY
    ensures var secs' := GetStr(secs, sec, key, d).0;
            (OwesHeader(secs', s) <==> OwesHeader(secs, s)) && Look(secs', s, k) == Look(secs, s, k)
  {
    GetterHides(secs, sec, key, d);
  }

  lemma LocalSound(secs: seq<Section>, op: Op)
    requires Inv(secs) && Clean(secs) && Proper(op)
    ensures Inv(Do(secs, op)) && Clean(Do(secs, op))
  {
    DoOk(secs, op);
    match op
    case SetOp(sec, key, v) => SetClean(secs, sec, key, v);
    case UnsetOp(sec, key) => UnsetClean(secs, sec, key);
    case GetOp(sec, key, d) => GetterClean(secs, sec, key, d);
  }

  // A call that does not write the name leaves a clean name clean.
  lemma LocalElsewhere(secs: seq<Section>, i: nat, op: Op, s: string, k: string)
    requires Inv(secs) && Proper(op) && !Writes(Local(i, op), s, k) && !Pending(secs, s, k)
    ensures !Pending(Do(secs, op), s, k)
  {
    match op
    case SetOp(sec, key, v) => SetEffect(secs, sec, key, v, s, k);
    case UnsetOp(sec, key) => UnsetEffect(secs, sec, key, s, k);
    case GetOp(sec, key, d) => GetEffect(secs, sec, key, d, s, k);
  }

  // The owner's copy follows its ledger.
  lemma LocalByOwner(d: Daemon, w: nat, op: Op, l: Ledger, s: string, k: string)
    requires d.phase == Idle && Inv(d.secs) && Proper(op) && OwnerKnows(d, l, s, k)
    requires Writes(Local(w, op), s, k) ==> Lasting(Local(w, op))
    ensures OwnerKnows(d.(secs := Do(d.secs, op)), Note(l, Local(w, op), w, s, k), s, k)
  {
    match op
    case SetOp(sec, key, v) => SetEffect(d.secs, sec, key, v, s, k);
    case UnsetOp(sec, key) => UnsetEffect(d.secs, sec, key, s, k);
    case GetOp(sec, key, x) => GetEffect(d.secs, sec, key, x, s, k);
  }

  lemma RemoveByOwner(d: Daemon, w: nat, sec: string, l: Ledger, s: string, k: string)
    requires d.phase == Idle && Inv(d.secs) && OwnerKnows(d, l, s, k)
    ensures OwnerKnows(d.(secs := RemoveSection(d.secs, sec).0), Note(l, Remove(w, sec), w, s, k), s, k)
  {
    RemoveAt(d.secs, sec, s, k);
  }

  lemma RemoveElsewhere(secs: seq<Section>, i: nat, sec: string, s: string, k: string)
    requires Inv(secs) && !Writes(Remove(i, sec), s, k) && !Pending(secs, s, k)
    ensures !Pending(RemoveSection(secs, sec).0, s, k)
  {
    RemoveAt(secs, sec, s, k);
  }

  // What the owner writes is what it left the name at.
  lemma OwnerCommits(d: Daemon, text: string, l: Ledger, s: string, k: string)
    requires Inv(d.secs) && Clean(d.secs) && d.phase != Down && OwnerKnows(d, l, s, k)
    requires MeaningAt(text, (Lower(s), Lower(k))) == l.saved
    ensures MeaningAt(SurgicalText(text, CollectDirty(d.secs)), (Lower(s), Lower(k))) == l.current
  {
    SaveCommits(d.secs, text, s, k);
    hide SavedValue, Meaning, SurgicalText, CollectDirty, FindComment, Trimmed, SavedComment;
    if OwesHeader(d.secs, s) {
      RemovedHides(d.secs, s, k);
    }
  }

  // ---- the file stays loadable

  predicate KeyFits(raw: string) {
    ParseLine(raw).Bind? ==> |ParseLine(raw).key| < MAX_KEY
  }

  lemma FromKeyFits(lines: seq<string>, refs: seq<Ref>, x: string)
    requires Orderly(refs) && AllOneLine(lines) && KeysFit(lines) && From(lines, refs, x)
    ensures KeyFits(x)
  {
    if x in lines {
      var i :| 0 <= i < |lines| && lines[i] == x;
    } else if r :| r in refs && RefLine(r, x) {
      var d :| 0 <= d < |refs| && refs[d] == r;
      assert WellNamed(refs[d]);
      KeyLineReads(r);
      NewHeaderParses(r.sec);
    } else if x != "" {
      var l :| 0 <= l < |lines| && RebuiltLine(lines, refs, l, x);
      RebuiltKeyFits(lines, l, refs);
    }
  }

  lemma RebuiltKeyFits(lines: seq<string>, l: nat, refs: seq<Ref>)
    requires l < |lines| && Orderly(refs) && AllOneLine(lines) && KeysFit(lines) && Rebuilds(lines, l, refs)
    ensures |LineHead(lines, l, refs)| == 1 && KeyFits(LineHead(lines, l, refs)[0])
  {
    var r := refs[Rep(lines, l, refs)];
    RepIsLive(lines, l, refs);
    RebuildsKeyLine(lines, l, refs);
    assert WellNamed(r);
    RebuildReads(lines[l], r);
  }

  lemma SaveKeepsKeysFit(text: string, refs: seq<Ref>)
    requires Orderly(refs) && KeysFit(Lines(text))
    ensures KeysFit(Lines(SurgicalText(text, refs)))
  {
    var lines := Lines(text);
    var out := SurgicalLines(lines, refs);
    LinesAreLines(text);
    OrderlyWritable(refs);
    SurgicalOneLine(lines, refs);
    SurgicalFrom(lines, refs);
    forall i | 0 <= i < |out|
      ensures KeyFits(out[i])
    {
      FromKeyFits(lines, refs, out[i]);
    }
  }

  // ---- every step keeps the invariant

  // What a step of daemon i has to do for its own place
  predicate StepOk(s: Sys, a: Act, l: Ledger, w: nat, sec: string, k: string)
    requires Enabled(s, a)
  {
    var s', l' := Next(s, a), Note(l, a, w, sec, k);
    && KeysFit(Lines(s'.file))
    && MeaningAt(s'.file, (Lower(sec), Lower(k))) == l'.saved
    && Sound(s', a.d)
    && (if a.d == w then OwnerKnows(s'.ds[w], l', sec, k)
        else s'.ds[a.d].phase != Down ==> !Pending(s'.ds[a.d].secs, sec, k))
  }

  lemma StartOk(s: Sys, i: nat, l: Ledger, w: nat, sec: string, k: string)
    requires Enabled(s, Start(i)) && Consistent(s, l, w, sec, k)
    ensures StepOk(s, Start(i), l, w, sec, k)
  {
    Loads(s.file, sec, k);
  }

  lemma EditOk(s: Sys, a: Act, l: Ledger, w: nat, sec: string, k: string)
    requires (a.Local? || a.Remove?) && Enabled(s, a) && Consistent(s, l, w, sec, k)
    requires Writes(a, sec, k) ==> a.d == w && Lasting(a)
    ensures StepOk(s, a, l, w, sec, k)
  {
    var d := s.ds[a.d];
    assert Sound(s, a.d);
    match a
    case Local(i, op) =>
      LocalSound(d.secs, op);
      if i == w {
        LocalByOwner(d, w, op, l, sec, k);
      } else {
        LocalElsewhere(d.secs, i, op, sec, k);
      }
    case Remove(i, gone) =>
      RemoveClean(d.secs, gone);
      RemoveAt(d.secs, gone, sec, k);
      if i == w {
        RemoveByOwner(d, w, gone, l, sec, k);
      } else {
        RemoveElsewhere(d.secs, i, gone, sec, k);
      }
  }

  lemma ReplaceOk(s: Sys, i: nat, l: Ledger, w: nat, sec: string, k: string)
    requires Enabled(s, Replace(i, true)) && Consistent(s, l, w, sec, k)
    ensures StepOk(s, Replace(i, true), l, w, sec, k)
  {
    var d := s.ds[i];
    assert Sound(s, i);
    CollectOrderly(d.secs);
    SaveKeepsKeysFit(s.file, CollectDirty(d.secs));
    ClearOk(d.secs);
    ClearAt(d.secs, sec, k);
    if i == w {
      OwnerCommits(d, s.file, l, sec, k);
    } else {
      SaveCommits(d.secs, s.file, sec, k);
    }
  }

  lemma LockStepOk(s: Sys, a: Act, l: Ledger, w: nat, sec: string, k: string)
    requires a.Lock? || a.Read? || a.Unlock? || (a.Replace? && !a.ok)
    requires Enabled(s, a) && Consistent(s, l, w, sec, k)
    ensures StepOk(s, a, l, w, sec, k)
  {
    assert Sound(s, a.d);
  }

  // Mutual exclusion: no other daemon is in a save when the file or the lock changes.
  lemma OthersKept(s: Sys, a: Act, l: Ledger, w: nat, sec: string, k: string, j: nat)
    requires Enabled(s, a) && Consistent(s, l, w, sec, k) && j < |s.ds| && j != a.d
    ensures Next(s, a).ds[j] == s.ds[j] && Sound(Next(s, a), j)
  {
    assert Sound(s, a.d) && Sound(s, j);
  }

  lemma OwnerUnmoved(a: Act, l: Ledger, w: nat, s: string, k: string)
    requires a.d != w
    ensures Note(l, a, w, s, k) == l
  {
  }

  lemma StepKeeps(s: Sys, a: Act, l: Ledger, w: nat, sec: string, k: string)
    requires Enabled(s, a) && Consistent(s, l, w, sec, k)
    requires Writes(a, sec, k) ==> a.d == w && Lasting(a)
    ensures Consistent(Next(s, a), Note(l, a, w, sec, k), w, sec, k)
  {
    match a {
      case Start(i) => StartOk(s, i, l, w, sec, k);
      case Local(_, _) => EditOk(s, a, l, w, sec, k);
      case Remove(_, _) => EditOk(s, a, l, w, sec, k);
      case Replace(i, ok) => if ok { ReplaceOk(s, i, l, w, sec, k); } else { LockStepOk(s, a, l, w, sec, k); }
      case _ => LockStepOk(s, a, l, w, sec, k);
    }
    Assemble(s, a, l, w, sec, k);
  }

  lemma Assemble(s: Sys, a: Act, l: Ledger, w: nat, sec: string, k: string)
    requires Enabled(s, a) && Consistent(s, l, w, sec, k) && StepOk(s, a, l, w, sec, k)
    ensures Consistent(Next(s, a), Note(l, a, w, sec, k), w, sec, k)
  {
    hide Next, Note, Sound, OwnerKnows, Pending, MeaningAt, KeysFit, Enabled;
    var s' := Next(s, a);
    forall j: nat | j < |s.ds| && j != a.d
      ensures s'.ds[j] == s.ds[j] && Sound(s', j)
    {
      OthersKept(s, a, l, w, sec, k, j);
    }
    if a.d != w {
      OwnerUnmoved(a, l, w, sec, k);
    }
  }

  lemma {:induction false} RunKeeps(s: Sys, acts: seq<Act>, l: Ledger, w: nat, sec: string, k: string)
    requires Runs(s, acts) && OwnedBy(acts, w, sec, k) && Consistent(s, l, w, sec, k)
    ensures Consistent(After(s, acts), Noted(l, acts, w, sec, k), w, sec, k)
    decreases |acts|
  {
    hide Consistent, Enabled, Next, Note;
    if acts != [] {
      StepKeeps(s, acts[0], l, w, sec, k);
      assert OwnedBy(acts[1..], w, sec, k);
      RunKeeps(Next(s, acts[0]), acts[1..], Note(l, acts[0], w, sec, k), w, sec, k);
    }
  }

  lemma InitConsistent(seed: string, n: nat, w: nat, sec: string, k: string)
    requires KeysFit(Lines(seed))
    ensures var v := MeaningAt(seed, (Lower(sec), Lower(k)));
            Consistent(Init(seed, n), Ledger(v, v), w, sec, k)
  {
    hide MeaningAt, KeysFit, Pending, Clean, Inv;
  }

  /** No update is lost. In every interleaving of n daemons, a name written by
      daemon w alone loads from the file as what w had last set it to, or had
      taken it out, when w last saved; and with w no daemon at all, as the seed
      had it. What w did is read off the run alone. */
  lemma NoLostUpdate(seed: string, n: nat, acts: seq<Act>, w: nat, sec: string, k: string)
    requires KeysFit(Lines(seed)) && Runs(Init(seed, n), acts) && OwnedBy(acts, w, sec, k)
    ensures var v := MeaningAt(seed, (Lower(sec), Lower(k)));
            Get(LoadText(After(Init(seed, n), acts).file), sec, k) == Noted(Ledger(v, v), acts, w, sec, k).saved
  {
    var v := MeaningAt(seed, (Lower(sec), Lower(k)));
    InitConsistent(seed, n, w, sec, k);
    RunKeeps(Init(seed, n), acts, Ledger(v, v), w, sec, k);
    LoadAnswersMeaning(After(Init(seed, n), acts).file, sec, k);
  }

  lemma {:induction false} NobodyNotes(s: Sys, acts: seq<Act>, l: Ledger, sec: string, k: string)
    requires Runs(s, acts)
    ensures Noted(l, acts, |s.ds|, sec, k) == l
    decreases |acts|
  {
    if acts != [] {
      OwnerUnmoved(acts[0], l, |s.ds|, sec, k);
      NobodyNotes(Next(s, acts[0]), acts[1..], l, sec, k);
    }
  }

  /** A name nobody writes keeps its first value, whatever is saved around it. */
  lemma UnwrittenKept(seed: string, n: nat, acts: seq<Act>, sec: string, k: string)
    requires KeysFit(Lines(seed)) && Runs(Init(seed, n), acts)
    requires forall i | 0 <= i < |acts| :: !Writes(acts[i], sec, k)
    ensures Get(LoadText(After(Init(seed, n), acts).file), sec, k) == Get(LoadText(seed), sec, k)
  {
    var v := MeaningAt(seed, (Lower(sec), Lower(k)));
    NoLostUpdate(seed, n, acts, n, sec, k);
    NobodyNotes(Init(seed, n), acts, Ledger(v, v), sec, k);
    LoadAnswersMeaning(seed, sec, k);
  }
}
