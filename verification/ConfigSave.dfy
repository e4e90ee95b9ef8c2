/** The comment-preserving save, line by line: what `config_write_surgical`
    emits for a file and a list of dirty references. */
module ConfigSave {
  import opened CText
  import opened ConfigLines
  import opened ConfigMeaning
  import opened ConfigStore

  predicate Live(r: Ref) {
    r.KeyRef? && !r.removed
  }

  // The name a key reference is about
  function RefName(r: Ref): Name {
    (Lower(r.sec), if r.KeyRef? then Lower(r.key) else "")
  }

  // ---- where a reference meets the file

  // The section in force after the first n lines
  function SecAt(lines: seq<string>, n: nat): string
    requires n <= |lines|
  {
    if n == 0 then ""
    else
      match ParseLine(lines[n - 1])
      case Header(sec) => sec
      case _ => SecAt(lines, n - 1)
  }

  // Line l is the header, or binds the key, that r is about
  predicate Hits(lines: seq<string>, l: nat, r: Ref)
    requires l < |lines|
  {
    match ParseLine(lines[l])
    case Inert => false
    case Header(sec) => r.SectionRef? && EqNoCase(r.sec, sec)
    case Bind(key, val) => r.KeyRef? && NameOf(SecAt(lines, l), key) == RefName(r)
  }

  // replace_line after the first n lines
  function LastHit(lines: seq<string>, n: nat, r: Ref): (h: int)
    requires n <= |lines|
    ensures -1 <= h < n
    ensures h >= 0 ==> Hits(lines, h, r)
  {
    if n == 0 then -1 else if Hits(lines, n - 1, r) then n - 1 else LastHit(lines, n - 1, r)
  }

  // Line l is a visible line of r's section
  predicate Anchors(lines: seq<string>, l: nat, r: Ref)
    requires l < |lines|
  {
    NonBlank(lines[l]) && EqNoCase(r.sec, SecAt(lines, l + 1))
  }

  // append_line after the first n lines
  function Anchor(lines: seq<string>, n: nat, r: Ref): (a: int)
    requires n <= |lines|
    ensures -1 <= a < n
  {
    if n == 0 then -1 else if Anchors(lines, n - 1, r) then n - 1 else Anchor(lines, n - 1, r)
  }

  // sec_in_file after the first n lines
  predicate InFile(lines: seq<string>, n: nat, sec: string)
    requires n <= |lines|
  {
    n > 0 && ((ParseLine(lines[n - 1]).Header? && EqNoCase(sec, ParseLine(lines[n - 1]).sec))
              || InFile(lines, n - 1, sec))
  }

  lemma {:induction false} AnchorAnchors(lines: seq<string>, n: nat, r: Ref)
    requires n <= |lines|
    ensures Anchor(lines, n, r) >= 0 ==> Anchors(lines, Anchor(lines, n, r), r)
  {
    hide Anchors;
    if n > 0 {
      AnchorAnchors(lines, n - 1, r);
    }
  }

  // ---- which lines go

  predicate Owed(refs: seq<Ref>, sec: string) {
    exists d | 0 <= d < |refs| :: refs[d].SectionRef? && EqNoCase(refs[d].sec, sec)
  }

  // The last header among the first n lines belongs to a removed section
  predicate InRemoved(lines: seq<string>, n: nat, refs: seq<Ref>)
    requires n <= |lines|
  {
    n > 0 &&
    match ParseLine(lines[n - 1])
    case Header(sec) => Owed(refs, sec)
    case _ => InRemoved(lines, n - 1, refs)
  }

  predicate DropsHeader(lines: seq<string>, l: nat, refs: seq<Ref>)
    requires l < |lines|
  {
    ParseLine(lines[l]).Header? && Owed(refs, ParseLine(lines[l]).sec)
  }

  // A key line an unset takes out
  predicate TakenOut(lines: seq<string>, l: nat, refs: seq<Ref>)
    requires l < |lines|
  {
    exists d | 0 <= d < |refs| :: refs[d].KeyRef? && refs[d].removed && Hits(lines, l, refs[d])
  }

  predicate Dropped(lines: seq<string>, l: nat, refs: seq<Ref>)
    requires l < |lines|
  {
    || DropsHeader(lines, l, refs)
    || TakenOut(lines, l, refs)
    || (InRemoved(lines, l + 1, refs) && !ParseLine(lines[l]).Header? && NonBlank(lines[l]))
    || (!NonBlank(lines[l]) && l + 1 < |lines| && DropsHeader(lines, l + 1, refs))
  }

  // ---- what is written

  function KeyLine(r: Ref): string {
    if r.KeyRef? then r.key + " = " + r.value else ""
  }

  // The inline comment a rewritten line carries over, if there is room for it
  function KeptComment(raw: string, r: Ref): string
    requires r.KeyRef? && ParseLine(raw).Bind?
  {
    if KeyEnd(raw) + 3 + |r.value| + |CommentOf(raw)| >= MAX_LINE then "" else CommentOf(raw)
  }

  /** The line that replaces a bound one: the file's own spelling of the key and
      its inline comment are kept unless the line would grow past the limit. */
  function Rebuild(raw: string, r: Ref): string
    requires r.KeyRef? && ParseLine(raw).Bind? && KeyEnd(raw) <= |raw|
  {
    var keylen := KeyEnd(raw);
    var head := if keylen + 3 + |r.value| >= MAX_LINE then r.key else raw[..keylen];
    head + " = " + r.value + KeptComment(raw, r)
  }

  // The line a save writes for r: the line that bound its name last, rebuilt, or a new one
  function SavedLine(lines: seq<string>, r: Ref): string
    requires r.KeyRef?
  {
    var h := LastHit(lines, |lines|, r);
    if h < 0 then KeyLine(r) else KeyLineShape(lines[h]); Rebuild(lines[h], r)
  }

  // ... and the comment it carries over
  function SavedComment(lines: seq<string>, r: Ref): string
    requires r.KeyRef?
  {
    var h := LastHit(lines, |lines|, r);
    if h < 0 then "" else KeptComment(lines[h], r)
  }

  // Places where keys that have no line yet are written
  datatype Place = AtTop | AfterLine(l: nat) | InNew(sec: string)

  predicate IsNew(lines: seq<string>, r: Ref) {
    Live(r) && r.sec != "" && !InFile(lines, |lines|, r.sec)
  }

  predicate Lands(lines: seq<string>, r: Ref, p: Place) {
    Live(r) &&
    match p
    case AtTop => r.sec == "" && LastHit(lines, |lines|, r) < 0 && Anchor(lines, |lines|, r) < 0
    case AfterLine(l) => LastHit(lines, |lines|, r) < 0 && Anchor(lines, |lines|, r) == l
    case InNew(sec) => IsNew(lines, r) && EqNoCase(sec, r.sec)
  }

  function Landing(lines: seq<string>, refs: seq<Ref>, p: Place): (rs: seq<Ref>)
    ensures forall i | 0 <= i < |rs| :: rs[i] in refs && Lands(lines, rs[i], p)
  {
    if refs == [] then []
    else (if Lands(lines, refs[0], p) then [refs[0]] else []) + Landing(lines, refs[1..], p)
  }

  function KeyLines(rs: seq<Ref>): (ls: seq<string>)
    ensures |ls| == |rs|
  {
    if rs == [] then [] else [KeyLine(rs[0])] + KeyLines(rs[1..])
  }

  // The first reference whose replace_line is l, or |refs|
  function RepFrom(lines: seq<string>, l: nat, refs: seq<Ref>, d: nat): (r: nat)
    requires d <= |refs|
    ensures d <= r <= |refs|
    ensures r < |refs| ==> LastHit(lines, |lines|, refs[r]) == l
    decreases |refs| - d
  {
    if d == |refs| || LastHit(lines, |lines|, refs[d]) == l then d else RepFrom(lines, l, refs, d + 1)
  }

  function Rep(lines: seq<string>, l: nat, refs: seq<Ref>): nat {
    RepFrom(lines, l, refs, 0)
  }

  predicate Rebuilds(lines: seq<string>, l: nat, refs: seq<Ref>)
    requires l < |lines|
  {
    !Dropped(lines, l, refs) && Rep(lines, l, refs) < |refs| && refs[Rep(lines, l, refs)].KeyRef?
  }

  lemma RebuildsKeyLine(lines: seq<string>, l: nat, refs: seq<Ref>)
    requires l < |lines| && Rebuilds(lines, l, refs)
    ensures ParseLine(lines[l]).Bind? && KeyEnd(lines[l]) <= |lines[l]|
    ensures Hits(lines, l, refs[Rep(lines, l, refs)])
  {
    KeyLineShape(lines[l]);
  }

  // What becomes of line l itself: nothing, the line, or its replacement
  function LineHead(lines: seq<string>, l: nat, refs: seq<Ref>): (ls: seq<string>)
    requires l < |lines|
  {
    if Dropped(lines, l, refs) then []
    else if Rebuilds(lines, l, refs) then
      RebuildsKeyLine(lines, l, refs);
      [Rebuild(lines[l], refs[Rep(lines, l, refs)])]
    else [lines[l]]
  }

  // Everything written between line l and line l + 1
  function LineOut(lines: seq<string>, l: nat, refs: seq<Ref>): seq<string>
    requires l < |lines|
  {
    LineHead(lines, l, refs) + KeyLines(Landing(lines, refs, AfterLine(l)))
  }

  function Body(lines: seq<string>, n: nat, refs: seq<Ref>): seq<string>
    requires n <= |lines|
  {
    if n == 0 then KeyLines(Landing(lines, refs, AtTop))
    else Body(lines, n - 1, refs) + LineOut(lines, n - 1, refs)
  }

  // A new section is set off by a blank line unless one is there already
  function Separator(acc: seq<string>): seq<string> {
    if acc == [] || (|acc| > 1 && acc[|acc| - 1] == "") then [] else [""]
  }

  function NewSection(lines: seq<string>, refs: seq<Ref>, d: nat): seq<string>
    requires d < |refs|
  {
    ["[" + refs[d].sec + "]"] + KeyLines(Landing(lines, refs[d..], InNew(refs[d].sec)))
  }

  // Reference d needs a new section that no earlier reference has opened
  predicate Opens(lines: seq<string>, refs: seq<Ref>, d: nat)
    requires d < |refs|
  {
    IsNew(lines, refs[d]) && !OpenedBefore(lines, refs, d, refs[d].sec)
  }

  predicate OpenedBefore(lines: seq<string>, refs: seq<Ref>, d: nat, sec: string)
    requires d <= |refs|
  {
    exists d' | 0 <= d' < d :: IsNew(lines, refs[d']) && EqNoCase(refs[d'].sec, sec)
  }

  function NewSections(lines: seq<string>, refs: seq<Ref>, d: nat, acc: seq<string>): seq<string>
    requires d <= |refs|
    decreases |refs| - d
  {
    if d == |refs| then acc
    else if Opens(lines, refs, d) then
      NewSections(lines, refs, d + 1, acc + Separator(acc) + NewSection(lines, refs, d))
    else NewSections(lines, refs, d + 1, acc)
  }

  function SurgicalLines(lines: seq<string>, refs: seq<Ref>): seq<string> {
    NewSections(lines, refs, 0, Body(lines, |lines|, refs))
  }

  function SurgicalText(text: string, refs: seq<Ref>): string {
    Unlines(SurgicalLines(Lines(text), refs))
  }

  // ---- what a list must be like

  // A live reference writes one line, which binds its key in its section.
  predicate WellNamed(r: Ref) {
    && (r.SectionRef? ==> r.sec != "")
    && (Live(r) ==> GoodKey(r.key) && GoodSection(r.sec) && |r.value| < MAX_VAL && OneLine(r.value))
  }

  // No live key is also taken out, named twice, or in a section taken out
  predicate Compatible(a: Ref, b: Ref) {
    Live(a) ==> if b.SectionRef? then !EqNoCase(a.sec, b.sec) else RefName(a) != RefName(b)
  }

  predicate Apart(refs: seq<Ref>) {
    forall i, j | 0 <= i < |refs| && 0 <= j < |refs| && i != j :: Compatible(refs[i], refs[j])
  }

  predicate Orderly(refs: seq<Ref>) {
    Apart(refs) && forall i | 0 <= i < |refs| :: WellNamed(refs[i])
  }

  // The save takes n out of the file
  predicate Gone(refs: seq<Ref>, n: Name) {
    exists d | 0 <= d < |refs| ::
      if refs[d].SectionRef? then Lower(refs[d].sec) == n.0 else refs[d].removed && RefName(refs[d]) == n
  }

  predicate SetTo(refs: seq<Ref>, n: Name, r: Ref) {
    r in refs && Live(r) && RefName(r) == n
  }
}
