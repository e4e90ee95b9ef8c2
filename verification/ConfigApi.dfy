/** The configuration object: the list walks of the public API, each proved
    against the function on values that ConfigStore gives for it. */
module ConfigApi {
  import opened Basics
  import opened CText
  import opened ConfigLines
  import opened ConfigMeaning
  import opened ConfigStore
  import opened ConfigStoreFacts
  import opened ConfigSave
  import opened ConfigSaveMeaning
  import opened ConfigBudget
  import opened ConfigSurgical
  import opened ConfigLoader

  // The record fields hold what a save may write.
  predicate CanSave(secs: seq<Section>) {
    AllFit(CollectDirty(secs)) && AllWritable(CollectDirty(secs))
  }

  // The references one section owes the file
  method GatherSection(s: Section) returns (refs: seq<Ref>)
    ensures refs == SectionRefs(s)
  {
    refs := if s.removed && s.dirty then [SectionRef(s.name)] else [];
    ghost var header := refs;
    assert s.entries[0..] == s.entries;
    for j := 0 to |s.entries|
      invariant refs + EntryRefs(s.name, s.entries[j..]) == header + EntryRefs(s.name, s.entries)
    {
      assert s.entries[j..][1..] == s.entries[j + 1..];
      var e := s.entries[j];
      if e.dirty {
        ghost var rest := EntryRefs(s.name, s.entries[j + 1..]);
        assert refs + ([KeyRef(s.name, e.key, e.value, e.removed)] + rest)
            == refs + [KeyRef(s.name, e.key, e.value, e.removed)] + rest;
        refs := refs + [KeyRef(s.name, e.key, e.value, e.removed)];
      }
    }
    assert refs + [] == refs;
  }

  // i from each end are in place, and the rest is as it was
  predicate TurnedTo(flat: seq<Ref>, refs: seq<Ref>, i: nat) {
    && |refs| == |flat|
    && (forall k | 0 <= k < |flat| && (k < i || |flat| - 1 - k < i) :: refs[k] == flat[|flat| - 1 - k])
    && (forall k | i <= k < |flat| - i :: refs[k] == flat[k])
  }

  lemma TurnedAtStart(flat: seq<Ref>)
    ensures TurnedTo(flat, flat, 0)
  {
  }

  lemma SwapEnds(flat: seq<Ref>, refs: seq<Ref>, i: nat, j: nat)
    requires TurnedTo(flat, refs, i) && i < j == |flat| - 1 - i
    ensures |refs| == |flat| && TurnedTo(flat, refs[i := refs[j]][j := refs[i]], i + 1)
  {
  }

  lemma TurnedWhole(flat: seq<Ref>, refs: seq<Ref>, i: nat)
    requires TurnedTo(flat, refs, i) && |flat| <= 2 * i + 1
    ensures refs == Reverse(flat)
  {
  }

  // The swap loop that reverses the list in place
  method TurnRound(flat: seq<Ref>) returns (refs: seq<Ref>)
    ensures refs == Reverse(flat)
  {
    hide TurnedTo;
    refs := flat;
    var i, j := 0, |refs| - 1;
    TurnedAtStart(flat);
    while i < j
      invariant 0 <= i <= j + 1 && j == |flat| - 1 - i && |refs| == |flat| && TurnedTo(flat, refs, i)
    {
      SwapEnds(flat, refs, i, j);
      refs := refs[i := refs[j]][j := refs[i]];
      i, j := i + 1, j - 1;
    }
    TurnedWhole(flat, refs, i);
  }

  // One entry of a removed section
  lemma RemoveNext(es: seq<Entry>, part: seq<Entry>, j: nat)
    requires j < |es| == |part| && part[j..] == es[j..] && part[..j] == RemoveEntries(es)[..j]
    ensures var e := part[j];
            var now := if !e.defaulted && !e.removed then part[j := e.(removed := true, dirty := true)] else part;
            now[..j + 1] == RemoveEntries(es)[..j + 1] && now[j + 1..] == es[j + 1..]
  {
    var e := part[j];
    var now := if !e.defaulted && !e.removed then part[j := e.(removed := true, dirty := true)] else part;
    var all := RemoveEntries(es);
    assert e == es[j] by {
      assert part[j..][0] == es[j..][0];
    }
    assert now[j] == all[j];
    assert now[..j] == part[..j] && now[j + 1..] == part[j..][1..] && es[j + 1..] == es[j..][1..];
    assert now[..j + 1] == now[..j] + [now[j]] && all[..j + 1] == all[..j] + [all[j]];
  }

  class Config {
    var sections: seq<Section>

    constructor ()
      ensures sections == []
    {
      sections := [];
    }

    // find_or_create_section
    method FindOrCreateSection(name: string) returns (i: nat)
      modifies this
      ensures sections == WithSection(old(sections), name)
      ensures i == SectionSlot(old(sections), name)
    {
      i := 0;
      while i < |sections|
        invariant i <= |sections| && SectionFrom(sections, name, i) == FindSection(sections, name)
      {
        if EqNoCase(sections[i].name, name) {
          return;
        }
        i := i + 1;
      }
      var stored, full := RssStrlcpy(name, MAX_SECN);
      sections := [Section(stored, false, false, [])] + sections;
      i := 0;
    }

    // add_entry_ex
    method AddEntryEx(i: nat, key: string, value: string, dirty: bool, defaulted: bool)
      requires i < |sections|
      modifies this
      ensures sections == old(sections)[i := old(sections)[i].(
                            entries := PutEntry(old(sections)[i].entries, key, value, dirty, defaulted))]
    {
      var es := sections[i].entries;
      var stored, full := RssStrlcpy(value, MAX_VAL);
      var j := 0;
      while j < |es|
        invariant j <= |es| && EntryFrom(es, key, j) == FindEntry(es, key)
      {
        if EqNoCase(es[j].key, key) {
          var e := es[j].(value := stored, dirty := es[j].dirty || dirty);
          if defaulted {
            e := e.(defaulted := e.defaulted || e.removed);
          } else {
            e := e.(defaulted := false, removed := false);
          }
          sections := sections[i := sections[i].(entries := es[j := e])];
          return;
        }
        j := j + 1;
      }
      var name, whole := RssStrlcpy(key, MAX_KEY);
      sections := sections[i := sections[i].(entries := [Entry(name, stored, dirty, defaulted, false)] + es)];
    }

    // The lookup loops of rss_config_get_str
    method Find(sec: string, key: string) returns (v: Option<string>)
      ensures v == Get(sections, sec, key)
    {
      var i := 0;
      while i < |sections|
        invariant i <= |sections| && GetFrom(sections, sec, key, i) == Get(sections, sec, key)
      {
        if EqNoCase(sections[i].name, sec) {
          var es := sections[i].entries;
          var j := 0;
          while j < |es|
            invariant j <= |es| && VisibleFrom(es, key, j) == VisibleFrom(es, key, 0)
          {
            if EqNoCase(es[j].key, key) && !es[j].defaulted && !es[j].removed {
              return Some(es[j].value);
            }
            j := j + 1;
          }
        }
        i := i + 1;
      }
      return None;
    }

    /** rss_config_get_str: a missing key is answered with the caller's default,
        which is stored for display. */
    method RssGetStr(sec: string, key: string, default: Option<string>) returns (answer: Option<string>)
      modifies this
      ensures (sections, answer) == GetStr(old(sections), sec, key, default)
    {
      answer := Find(sec, key);
      if answer.Some? {
        return;
      }
      answer := default;
      if default.Some? {
        var i := FindOrCreateSection(sec);
        AddEntryEx(i, key, default.value, false, true);
        var es := sections[i].entries;
        var j := 0;
        while j < |es|
          invariant j <= |es| && EntryFrom(es, key, j) == FindEntry(es, key)
        {
          if EqNoCase(es[j].key, key) {
            return Some(es[j].value);
          }
          j := j + 1;
        }
      }
    }

    // rss_config_set_str
    method RssSetStr(sec: string, key: string, value: string)
      modifies this
      ensures sections == Set(old(sections), sec, key, value)
    {
      if sec == "" {
        return;
      }
      var i := FindOrCreateSection(sec);
      sections := sections[i := sections[i].(removed := false, dirty := false)];
      AddEntryEx(i, key, value, true, false);
    }

    // rss_config_unset
    method RssUnset(sec: string, key: string) returns (ok: bool)
      modifies this
      ensures (sections, ok) == Unset(old(sections), sec, key)
    {
      var i := 0;
      while i < |sections|
        invariant i <= |sections| && sections == old(sections)
        invariant UnsetFrom(sections, sec, key, i) == Unset(sections, sec, key)
      {
        if EqNoCase(sections[i].name, sec) {
          var es := sections[i].entries;
          var j := 0;
          while j < |es|
            invariant j <= |es| && EntryFrom(es, key, j) == FindEntry(es, key)
            invariant sections == old(sections)
          {
            if EqNoCase(es[j].key, key) {
              if es[j].defaulted || es[j].removed {
                return false;
              }
              sections := sections[i := sections[i].(entries := es[j := es[j].(removed := true, dirty := true)])];
              return true;
            }
            j := j + 1;
          }
        }
        i := i + 1;
      }
      return false;
    }

    // rss_config_remove_section
    method RssRemoveSection(sec: string) returns (ok: bool)
      modifies this
      ensures (sections, ok) == RemoveSection(old(sections), sec)
    {
      if sec == "" {
        return false;
      }
      var i := 0;
      while i < |sections|
        invariant i <= |sections| && sections == old(sections)
        invariant RemoveFrom(sections, sec, i) == RemoveFrom(sections, sec, 0)
      {
        if EqNoCase(sections[i].name, sec) && !sections[i].removed {
          var es := sections[i].entries;
          ghost var was := es;
          var j := 0;
          while j < |es|
            invariant sections == old(sections) && j <= |es| == |was|
            invariant es[..j] == RemoveEntries(was)[..j] && es[j..] == was[j..]
          {
            RemoveNext(was, es, j);
            if !es[j].defaulted && !es[j].removed {
              es := es[j := es[j].(removed := true, dirty := true)];
            }
            j := j + 1;
          }
          assert es == RemoveEntries(was);
          sections := sections[i := sections[i].(removed := true, dirty := true, entries := es)];
          return true;
        }
        i := i + 1;
      }
      return false;
    }

    // rss_config_has_dirty
    method RssHasDirty() returns (dirty: bool)
      ensures dirty == HasDirty(sections)
    {
      for i := 0 to |sections|
        invariant forall k | 0 <= k < i :: !SectionDirty(sections[k])
      {
        if sections[i].removed && sections[i].dirty {
          return true;
        }
        var es := sections[i].entries;
        for j := 0 to |es|
          invariant forall k | 0 <= k < j :: !es[k].dirty
        {
          if es[j].dirty {
            assert SectionDirty(sections[i]);
            return true;
          }
        }
      }
      return false;
    }

    /** collect_dirty: the references are gathered along the lists, which hold
        the newest first, and then turned round. */
    method RssCollectDirty() returns (refs: seq<Ref>)
      ensures refs == CollectDirty(sections)
    {
      refs := [];
      assert sections[0..] == sections;
      for i := 0 to |sections|
        invariant refs + FlatRefs(sections[i..]) == FlatRefs(sections)
      {
        var more := GatherSection(sections[i]);
        assert sections[i..][1..] == sections[i + 1..];
        assert refs + FlatRefs(sections[i..]) == refs + more + FlatRefs(sections[i + 1..]);
        refs := refs + more;
      }
      assert refs == FlatRefs(sections);
      refs := TurnRound(refs);
    }

    /** rss_config_save on an existing file. `writes` says whether the atomic
        replacement of the file succeeds. */
    method RssSave(text: string, writes: bool) returns (ret: int, text': string)
      requires CanSave(sections)
      modifies this
      ensures CollectDirty(old(sections)) == [] ==> ret == 0 && text' == text && sections == old(sections)
      ensures CollectDirty(old(sections)) != [] && writes ==>
                && ret == 0
                && text' == SurgicalText(text, CollectDirty(old(sections)))
                && sections == ClearDirty(old(sections))
      ensures CollectDirty(old(sections)) != [] && !writes ==>
                ret == -1 && text' == text && sections == old(sections)
    {
      var refs := RssCollectDirty();
      if |refs| == 0 {
        return 0, text;
      }
      var out := ConfigWriteSurgical(text, refs);
      if !writes {
        return -1, text;
      }
      for i := 0 to |sections|
        invariant |sections| == |old(sections)|
        invariant forall k | 0 <= k < i :: sections[k] == ClearDirty(old(sections))[k]
        invariant forall k | i <= k < |sections| :: sections[k] == old(sections)[k]
      {
        var es := sections[i].entries;
        for j := 0 to |es|
          invariant |es| == |sections[i].entries|
          invariant forall k | 0 <= k < j :: es[k] == sections[i].entries[k].(dirty := false)
          invariant forall k | j <= k < |es| :: es[k] == sections[i].entries[k]
        {
          es := es[j := es[j].(dirty := false)];
        }
        assert es == ClearEntries(sections[i].entries);
        sections := sections[i := sections[i].(dirty := false, entries := es)];
      }
      assert sections == ClearDirty(old(sections));
      return 0, out;
    }
  }

  // ---- the fgets loop

  // fgets into MAX_LINE bytes: up to a newline, kept, or until the buffer is full
  method Fgets(text: string, pos: nat) returns (next: nat)
    requires pos < |text|
    ensures pos < next <= |text| && next - pos < MAX_LINE
    ensures forall j | pos <= j < next - 1 :: text[j] != '\n'
    ensures text[next - 1] == '\n' || next == |text| || next - pos == MAX_LINE - 1
  {
    next := pos + 1;
    while next < |text| && next - pos < MAX_LINE - 1 && text[next - 1] != '\n'
      invariant pos < next <= |text| && next - pos <= MAX_LINE - 1
      invariant forall j | pos <= j < next - 1 :: text[j] != '\n'
    {
      next := next + 1;
    }
  }

  // Skips the rest of an over-long line
  method SkipLine(text: string, pos: nat) returns (next: nat)
    requires pos <= |text|
    ensures pos <= next <= |text|
    ensures if next > pos && text[next - 1] == '\n' then forall j | pos <= j < next - 1 :: text[j] != '\n'
            else next == |text| && forall j | pos <= j < next :: text[j] != '\n'
  {
    next := pos;
    while next < |text|
      invariant pos <= next <= |text|
      invariant forall j | pos <= j < next :: text[j] != '\n'
    {
      next := next + 1;
      if text[next - 1] == '\n' {
        return;
      }
    }
  }

  // The lines from here on are one line and the lines after it.
  lemma NextLine(text: string, pos: nat, end: nat)
    requires pos <= end <= |text| && pos < |text|
    requires forall j | pos <= j < end :: text[j] != '\n'
    requires end == |text| || text[end] == '\n'
    ensures Lines(text[pos..]) ==
            [text[pos..end]] + Lines(text[if end == |text| then end else end + 1..])
  {
    var rest := text[pos..];
    IndexIs(rest, '\n', end - pos);
    assert rest[..end - pos] == text[pos..end];
    if end < |text| {
      assert rest[end - pos + 1..] == text[end + 1..];
    } else {
      assert text[end..] == "" && rest == text[pos..end];
    }
  }

  lemma StoreOfCons(st: Loading, raw: string, rest: seq<string>)
    ensures StoreOf(st, [raw] + rest) == StoreOf(StoreStep(st, raw), rest)
  {
    assert ([raw] + rest)[1..] == rest;
  }

  // The newline fgets leaves on the line is white space to the parser.
  lemma NewlineTrimmed(raw: string)
    requires |raw| + 1 < MAX_LINE
    ensures ParseLine(raw + "\n") == ParseLine(raw)
  {
    if Lead(raw) < |raw| {
      var ws, tail := TrimSplit(raw);
      TrimFrame(ws, Trim(raw), tail + "\n");
      Assoc3(ws + Trim(raw), tail, "\n");
    } else {
      LeadSpaces(raw);
      LeadIs(raw + "\n", |raw| + 1);
    }
  }

  // A line that was read whole, bound into the configuration
  method BindLine(cfg: Config, sec0: string, line: string) returns (sec: string)
    requires |line| < MAX_LINE
    modifies cfg
    ensures Loading(sec, cfg.sections) == StoreStep(Loading(sec0, old(cfg.sections)), line)
  {
    var p := ReadLine(line);
    sec := sec0;
    match p
    case Inert =>
    case Header(name) => sec := name;
    case Bind(key, val) =>
      var i := cfg.FindOrCreateSection(sec);
      cfg.AddEntryEx(i, key, val, false, false);
  }

  // The loop stands at pos with st loaded
  ghost predicate LoadedTo(text: string, pos: nat, st: Loading) {
    pos <= |text| && StoreOf(st, Lines(text[pos..])) == StoreOf(NOTHING, Lines(text))
  }

  lemma LineDone(text: string, pos: nat, end: nat, st: Loading)
    requires LoadedTo(text, pos, st) && pos < |text| && pos <= end <= |text|
    requires forall j | pos <= j < end :: text[j] != '\n'
    requires end == |text| || text[end] == '\n'
    ensures LoadedTo(text, if end == |text| then end else end + 1, StoreStep(st, text[pos..end]))
  {
    NextLine(text, pos, end);
    StoreOfCons(st, text[pos..end], Lines(text[if end == |text| then end else end + 1..]));
  }

  /** One turn of the loader's loop: a line that fills the buffer is looked at
      one byte further, and rejected whole if it goes on. */
  method LoadLine(text: string, pos0: nat, cfg: Config, sec0: string) returns (pos: nat, sec: string)
    requires pos0 < |text| && LoadedTo(text, pos0, Loading(sec0, cfg.sections))
    modifies cfg
    ensures pos0 < pos && LoadedTo(text, pos, Loading(sec, cfg.sections))
  {
    hide LoadedTo, ParseLine, StoreStep;
    ghost var st0 := Loading(sec0, cfg.sections);
    pos := Fgets(text, pos0);
    var line := text[pos0..pos];
    if |line| == MAX_LINE - 1 && line[|line| - 1] != '\n' {
      assert line[|line| - 1] == text[pos - 1];
      if pos < |text| {
        pos := pos + 1;
        if text[pos - 1] != '\n' {
          var end := SkipLine(text, pos);
          sec := sec0;
          OverlongSkipped(text, pos0, pos, end, st0);
          pos := end;
          return;
        }
        sec := BindLine(cfg, sec0, line);
        LineDone(text, pos0, pos - 1, st0);
        return;
      }
    }
    sec := BindLine(cfg, sec0, line);
    assert line[|line| - 1] == text[pos - 1];
    if text[pos - 1] == '\n' {
      assert line == text[pos0..pos - 1] + "\n";
      NewlineStep(st0, text[pos0..pos - 1]);
      LineDone(text, pos0, pos - 1, st0);
    } else {
      LineDone(text, pos0, pos, st0);
    }
  }

  lemma NewlineStep(st: Loading, raw: string)
    requires |raw| + 1 < MAX_LINE
    ensures StoreStep(st, raw + "\n") == StoreStep(st, raw)
  {
    NewlineTrimmed(raw);
  }

  lemma OverlongSkipped(text: string, pos0: nat, pos: nat, end: nat, st: Loading)
    requires LoadedTo(text, pos0, st) && pos0 + MAX_LINE == pos <= end <= |text|
    requires forall j | pos0 <= j < pos :: text[j] != '\n'
    requires if end > pos && text[end - 1] == '\n' then forall j | pos <= j < end - 1 :: text[j] != '\n'
             else end == |text| && forall j | pos <= j < end :: text[j] != '\n'
    ensures LoadedTo(text, end, st)
  {
    hide LoadedTo, StoreOf;
    if end > pos && text[end - 1] == '\n' {
      OverlongInert(text[pos0..end - 1], st);
      LineDone(text, pos0, end - 1, st);
    } else {
      OverlongInert(text[pos0..end], st);
      LineDone(text, pos0, end, st);
    }
  }

  lemma OverlongInert(raw: string, st: Loading)
    requires |raw| >= MAX_LINE
    ensures StoreStep(st, raw) == st
  {
  }

  /** rss_config_load: the store is the fold over the text's lines. */
  method Load(text: string) returns (cfg: Config)
    ensures fresh(cfg) && cfg.sections == LoadText(text)
  {
    hide LoadedTo;
    cfg := new Config();
    var pos, sec := 0, "";
    LoadedStart(text);
    while pos < |text|
      invariant pos <= |text| && LoadedTo(text, pos, Loading(sec, cfg.sections))
    {
      pos, sec := LoadLine(text, pos, cfg, sec);
      LoadedBounds(text, pos, Loading(sec, cfg.sections));
    }
    LoadedEnd(text, Loading(sec, cfg.sections));
  }

  lemma LoadedStart(text: string)
    ensures LoadedTo(text, 0, NOTHING)
  {
    assert text[0..] == text;
  }

  lemma LoadedBounds(text: string, pos: nat, st: Loading)
    requires LoadedTo(text, pos, st)
    ensures pos <= |text|
  {
  }

  lemma LoadedEnd(text: string, st: Loading)
    requires LoadedTo(text, |text|, st)
    ensures st == StoreOf(NOTHING, Lines(text))
  {
    assert text[|text|..] == "";
  }
}
