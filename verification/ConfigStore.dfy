/** The in-memory configuration: sections and entries with their `dirty`,
    `defaulted` and `removed` flags, as values. Index 0 is the head of the
    list; new sections and entries are put in front. */
module ConfigStore {
  import opened Basics
  import opened CText
  import opened ConfigLines
  import opened ConfigMeaning

  datatype Entry = Entry(key: string, value: string, dirty: bool, defaulted: bool, removed: bool)

  datatype Section = Section(name: string, removed: bool, dirty: bool, entries: seq<Entry>)

  predicate Visible(e: Entry) {
    !e.defaulted && !e.removed
  }

  // ---- lookup

  function SectionFrom(secs: seq<Section>, name: string, i: nat): (r: nat)
    requires i <= |secs|
    ensures i <= r <= |secs|
    ensures r < |secs| ==> EqNoCase(secs[r].name, name)
    decreases |secs| - i
  {
    if i == |secs| || EqNoCase(secs[i].name, name) then i else SectionFrom(secs, name, i + 1)
  }

  // First section of that name, or |secs|
  function FindSection(secs: seq<Section>, name: string): nat {
    SectionFrom(secs, name, 0)
  }

  function EntryFrom(es: seq<Entry>, key: string, i: nat): (r: nat)
    requires i <= |es|
    ensures i <= r <= |es|
    ensures r < |es| ==> EqNoCase(es[r].key, key)
    decreases |es| - i
  {
    if i == |es| || EqNoCase(es[i].key, key) then i else EntryFrom(es, key, i + 1)
  }

  // First entry with that key, or |es|
  function FindEntry(es: seq<Entry>, key: string): nat {
    EntryFrom(es, key, 0)
  }

  // First entry with that key that a value lookup may see, or |es|
  function VisibleFrom(es: seq<Entry>, key: string, i: nat): (r: nat)
    requires i <= |es|
    ensures i <= r <= |es|
    ensures r < |es| ==> EqNoCase(es[r].key, key) && Visible(es[r])
    decreases |es| - i
  {
    if i == |es| || (EqNoCase(es[i].key, key) && Visible(es[i])) then i else VisibleFrom(es, key, i + 1)
  }

  // The lookup of rss_config_get_str, which goes on through later sections
  function GetFrom(secs: seq<Section>, sec: string, key: string, i: nat): Option<string>
    requires i <= |secs|
    decreases |secs| - i
  {
    if i == |secs| then None
    else
      var es := secs[i].entries;
      var j := VisibleFrom(es, key, 0);
      if EqNoCase(secs[i].name, sec) && j < |es| then Some(es[j].value)
      else GetFrom(secs, sec, key, i + 1)
  }

  function Get(secs: seq<Section>, sec: string, key: string): Option<string> {
    GetFrom(secs, sec, key, 0)
  }

  // ---- changes

  // find_or_create_section
  function WithSection(secs: seq<Section>, name: string): (r: seq<Section>)
    ensures SectionSlot(secs, name) < |r|
  {
    if FindSection(secs, name) < |secs| then secs
    else [Section(Clip(name, MAX_SECN - 1), false, false, [])] + secs
  }

  // Where the section find_or_create_section returns sits in its result
  function SectionSlot(secs: seq<Section>, name: string): nat {
    if FindSection(secs, name) < |secs| then FindSection(secs, name) else 0
  }

  // add_entry_ex
  function PutEntry(es: seq<Entry>, key: string, value: string, dirty: bool, defaulted: bool): seq<Entry> {
    var i := FindEntry(es, key);
    if i < |es| then es[i := Overwrite(es[i], value, dirty, defaulted)]
    else [Entry(Clip(key, MAX_KEY - 1), Clip(value, MAX_VAL - 1), dirty, defaulted, false)] + es
  }

  function Overwrite(e: Entry, value: string, dirty: bool, defaulted: bool): Entry {
    var e' := e.(value := Clip(value, MAX_VAL - 1), dirty := e.dirty || dirty);
    if defaulted then e'.(defaulted := e.defaulted || e.removed)
    else e'.(defaulted := false, removed := false)
  }

  function Put(secs: seq<Section>, sec: string, key: string, value: string, dirty: bool, defaulted: bool)
    : seq<Section>
  {
    var ws := WithSection(secs, sec);
    var i := SectionSlot(secs, sec);
    ws[i := ws[i].(entries := PutEntry(ws[i].entries, key, value, dirty, defaulted))]
  }

  // rss_config_get_str: the new store and the answer
  function GetStr(secs: seq<Section>, sec: string, key: string, default: Option<string>)
    : (seq<Section>, Option<string>)
  {
    match Get(secs, sec, key)
    case Some(v) => (secs, Some(v))
    case None =>
      if default.None? then (secs, None)
      else
        var secs' := Put(secs, sec, key, default.value, false, true);
        var es := secs'[SectionSlot(secs, sec)].entries;
        var i := FindEntry(es, key);
        (secs', if i < |es| then Some(es[i].value) else default)
  }

  // rss_config_set_str
  function Set(secs: seq<Section>, sec: string, key: string, value: string): seq<Section> {
    if sec == "" then secs
    else
      var ws := WithSection(secs, sec);
      var i := SectionSlot(secs, sec);
      ws[i := ws[i].(removed := false, dirty := false,
                     entries := PutEntry(ws[i].entries, key, value, true, false))]
  }

  function MarkRemoved(e: Entry): Entry {
    e.(removed := true, dirty := true)
  }

  // rss_config_unset: the first entry of that key in any section of that name
  function UnsetFrom(secs: seq<Section>, sec: string, key: string, i: nat): (seq<Section>, bool)
    requires i <= |secs|
    decreases |secs| - i
  {
    if i == |secs| then (secs, false)
    else
      var es := secs[i].entries;
      var j := FindEntry(es, key);
      if EqNoCase(secs[i].name, sec) && j < |es| then
        if Visible(es[j]) then (secs[i := secs[i].(entries := es[j := MarkRemoved(es[j])])], true)
        else (secs, false)
      else UnsetFrom(secs, sec, key, i + 1)
  }

  function Unset(secs: seq<Section>, sec: string, key: string): (seq<Section>, bool) {
    UnsetFrom(secs, sec, key, 0)
  }

  function RemoveEntries(es: seq<Entry>): (r: seq<Entry>)
    ensures |r| == |es|
  {
    seq(|es|, i requires 0 <= i < |es| => if Visible(es[i]) then MarkRemoved(es[i]) else es[i])
  }

  // rss_config_remove_section
  function RemoveFrom(secs: seq<Section>, sec: string, i: nat): (seq<Section>, bool)
    requires i <= |secs|
    decreases |secs| - i
  {
    if i == |secs| then (secs, false)
    else if EqNoCase(secs[i].name, sec) && !secs[i].removed then
      (secs[i := secs[i].(removed := true, dirty := true, entries := RemoveEntries(secs[i].entries))], true)
    else RemoveFrom(secs, sec, i + 1)
  }

  function RemoveSection(secs: seq<Section>, sec: string): (seq<Section>, bool) {
    if sec == "" then (secs, false) else RemoveFrom(secs, sec, 0)
  }

  // rss_config_has_dirty
  predicate HasDirty(secs: seq<Section>) {
    exists i | 0 <= i < |secs| :: SectionDirty(secs[i])
  }

  predicate SectionDirty(s: Section) {
    (s.removed && s.dirty) || exists j | 0 <= j < |s.entries| :: s.entries[j].dirty
  }

  function ClearEntries(es: seq<Entry>): (r: seq<Entry>)
    ensures |r| == |es|
  {
    seq(|es|, i requires 0 <= i < |es| => es[i].(dirty := false))
  }

  // The flags after a save that reached the file
  function ClearDirty(secs: seq<Section>): (r: seq<Section>)
    ensures |r| == |secs|
  {
    seq(|secs|, i requires 0 <= i < |secs| => secs[i].(dirty := false, entries := ClearEntries(secs[i].entries)))
  }

  // ---- what a save has to do

  /** One dirty_ref_t: a removed section's header, or a key to set or take out. */
  datatype Ref = SectionRef(sec: string) | KeyRef(sec: string, key: string, value: string, removed: bool)

  function EntryRefs(sec: string, es: seq<Entry>): seq<Ref> {
    if es == [] then []
    else
      (if es[0].dirty then [KeyRef(sec, es[0].key, es[0].value, es[0].removed)] else [])
      + EntryRefs(sec, es[1..])
  }

  function SectionRefs(s: Section): seq<Ref> {
    (if s.removed && s.dirty then [SectionRef(s.name)] else []) + EntryRefs(s.name, s.entries)
  }

  function FlatRefs(secs: seq<Section>): seq<Ref> {
    if secs == [] then [] else SectionRefs(secs[0]) + FlatRefs(secs[1..])
  }

  function Reverse<T>(s: seq<T>): (r: seq<T>)
    ensures |r| == |s|
    ensures forall i | 0 <= i < |s| :: r[i] == s[|s| - 1 - i]
  {
    seq(|s|, i requires 0 <= i < |s| => s[|s| - 1 - i])
  }

  // collect_dirty: both lists prepend, so the flat walk is reversed
  function CollectDirty(secs: seq<Section>): seq<Ref> {
    Reverse(FlatRefs(secs))
  }
}
