/** `config_write_surgical` as it runs: line arrays, `dirty_ref_t` records
    filled in while the file is scanned, and an output buffer with an offset. */
module ConfigSurgical {
  import opened CText
  import opened ConfigLines
  import opened ConfigStore
  import opened ConfigSave
  import opened ConfigSaveMeaning
  import opened ConfigSaveStable
  import opened ConfigBudget

  // ---- splitting the text

  lemma SplitAt(text: string, start: nat, i: nat)
    requires start <= i < |text| && text[i] == '\n'
    requires forall j | start <= j < i :: text[j] != '\n'
    ensures Lines(text[start..]) == [text[start..i]] + Lines(text[i + 1..])
  {
    assert text[start..] == text[start..i] + "\n" + text[i + 1..];
    LinesCons(text[start..i], text[i + 1..]);
  }

  lemma SplitEnd(text: string, start: nat)
    requires start <= |text|
    requires forall j | start <= j < |text| :: text[j] != '\n'
    ensures Lines(text[start..]) == if start == |text| then [] else [text[start..]]
  {
    IndexIs(text[start..], '\n', |text| - start);
  }

  // The scan has consumed n lines and stands at start
  predicate Consumed(text: string, n: nat, start: nat) {
    && start <= |text|
    && n <= |Lines(text)|
    && Lines(text)[n..] == Lines(text[start..])
    && (start > 0 ==> text[start - 1] == '\n')
  }

  lemma ConsumeLine(text: string, n: nat, start: nat, i: nat)
    requires Consumed(text, n, start)
    requires start <= i < |text| && text[i] == '\n'
    requires forall j | start <= j < i :: text[j] != '\n'
    ensures Consumed(text, n + 1, i + 1) && n < |Lines(text)| && Lines(text)[n] == text[start..i]
  {
    SplitAt(text, start, i);
    assert Lines(text)[n..] != [];
    assert Lines(text)[n] == Lines(text)[n..][0];
    assert Lines(text)[n + 1..] == Lines(text)[n..][1..];
  }

  lemma ConsumeRest(text: string, n: nat, start: nat)
    requires Consumed(text, n, start)
    requires forall j | start <= j < |text| :: text[j] != '\n'
    ensures |Lines(text)| == if start < |text| then n + 1 else n
    ensures start < |text| ==> Lines(text)[n] == text[start..]
  {
    SplitEnd(text, start);
    assert start < |text| ==> Lines(text)[n] == Lines(text)[n..][0];
  }

  // One pass to size the line arrays
  method CountLines(text: string) returns (n: nat)
    ensures n == |Lines(text)|
  {
    n := 0;
    ghost var start := 0;
    assert text[0..] == text;
    for i := 0 to |text|
      invariant start <= i && Consumed(text, n, start)
      invariant forall j | start <= j < i :: text[j] != '\n'
    {
      if text[i] == '\n' {
        ConsumeLine(text, n, start, i);
        n := n + 1;
        start := i + 1;
      }
    }
    ConsumeRest(text, n, start);
    if |text| > 0 && text[|text| - 1] != '\n' {
      n := n + 1;
    }
  }

  // Entry l of the line arrays is line l of the text
  predicate LineIs(text: string, off: int, len: int, line: string) {
    0 <= off <= off + len <= |text| && text[off..off + len] == line
  }

  lemma Cut(text: string, start: nat, end: nat, line: string)
    requires start <= end <= |text| && line == text[start..end]
    ensures LineIs(text, start, end - start, line)
  {
  }

  lemma ConsumeStart(text: string)
    ensures Consumed(text, 0, 0)
  {
    assert text[0..] == text;
  }

  /** Where each line starts and how long it is. */
  method FillLines(text: string, loff: array<int>, llen: array<int>)
    requires loff != llen && loff.Length == llen.Length == |Lines(text)|
    modifies loff, llen
    ensures forall k | 0 <= k < |Lines(text)| :: LineIs(text, loff[k], llen[k], Lines(text)[k])
  {
    hide *;
    var l, start := 0, 0;
    ghost var lines := Lines(text);
    ConsumeStart(text);
    for i := 0 to |text|
      invariant start <= i && l <= |lines| && Consumed(text, l, start)
      invariant forall j | start <= j < i :: text[j] != '\n'
      invariant forall k | 0 <= k < l :: LineIs(text, loff[k], llen[k], lines[k])
    {
      if text[i] == '\n' {
        ConsumeLine(text, l, start, i);
        Cut(text, start, i, lines[l]);
        loff[l] := start;
        llen[l] := i - start;
        l := l + 1;
        start := i + 1;
      }
    }
    ConsumeRest(text, l, start);
    if start < |text| {
      Cut(text, start, |text|, lines[l]);
      loff[l] := start;
      llen[l] := |text| - start;
    }
  }

  // ---- binding references to lines

  datatype DirtyRef = DirtyRef(
    ref: Ref,
    replaceLine: int,
    repKeyEnd: int,
    repComOff: int,
    appendLine: int,
    secInFile: bool,
    done: bool)

  /** The record knows where r meets the first l lines. */
  predicate BoundTo(d: DirtyRef, lines: seq<string>, l: nat, r: Ref)
    requires l <= |lines|
  {
    && d.ref == r
    && d.replaceLine == LastHit(lines, l, r)
    && d.appendLine == Anchor(lines, l, r)
    && d.secInFile == InFile(lines, l, r.sec)
    && (r.KeyRef? && d.replaceLine >= 0 ==> OffsetsOf(d, lines[d.replaceLine]))
  }

  predicate OffsetsOf(d: DirtyRef, raw: string) {
    ParseLine(raw).Bind? && d.repKeyEnd == KeyEnd(raw) && d.repComOff == ComOff(raw)
  }

  predicate AllBound(ds: seq<DirtyRef>, lines: seq<string>, l: nat, refs: seq<Ref>)
    requires l <= |lines|
  {
    |ds| == |refs| && forall d | 0 <= d < |refs| :: BoundTo(ds[d], lines, l, refs[d])
  }

  // r's own line goes: a header to remove, or a key that was unset
  predicate Takes(lines: seq<string>, l: nat, r: Ref)
    requires l < |lines|
  {
    Hits(lines, l, r) && (r.SectionRef? || r.removed)
  }

  lemma SecAfter(lines: seq<string>, l: nat)
    requires l < |lines|
    ensures SecAt(lines, l + 1) == match ParseLine(lines[l]) case Header(sec) => sec case _ => SecAt(lines, l)
  {
  }

  /** The body of the inner scan loop, for one record and one line. */
  method UpdateRef(d0: DirtyRef, ghost lines: seq<string>, l: nat, li: LineInfo, cursec: string)
    returns (d: DirtyRef, drop: bool)
    requires l < |lines| && li == LineInfoOf(lines[l]) && cursec == SecAt(lines, l + 1)
    requires BoundTo(d0, lines, l, d0.ref)
    ensures BoundTo(d, lines, l + 1, d0.ref) && d.done == d0.done
    ensures drop <==> Takes(lines, l, d0.ref)
  {
    SecAfter(lines, l);
    d, drop := d0, false;
    if !EqNoCase(d.ref.sec, cursec) {
      return;
    }
    if li.kind == 1 {
      d := d.(secInFile := true);
      if d.ref.SectionRef? {
        d := d.(replaceLine := l);
        drop := true;
      }
    }
    if li.nonblank {
      d := d.(appendLine := l);
    }
    if li.kind == 2 && d.ref.KeyRef? && EqNoCase(d.ref.key, li.key) {
      d := d.(replaceLine := l, repKeyEnd := li.keyEnd, repComOff := li.comOff);
      if d.ref.removed {
        drop := true;
      }
    }
  }

  // Some reference among the first e takes line l
  predicate TakesAny(lines: seq<string>, l: nat, refs: seq<Ref>, e: nat)
    requires l < |lines| && e <= |refs|
  {
    exists d | 0 <= d < e :: Takes(lines, l, refs[d])
  }

  // What the scan marks before the separators are looked at
  predicate DropsAlone(lines: seq<string>, l: nat, refs: seq<Ref>)
    requires l < |lines|
  {
    TakesAny(lines, l, refs, |refs|) || (InRemoved(lines, l + 1, refs) && !ParseLine(lines[l]).Header? && NonBlank(lines[l]))
  }

  lemma TakesOwed(lines: seq<string>, l: nat, refs: seq<Ref>, e: nat)
    requires l < |lines| && ParseLine(lines[l]).Header? && e == |refs|
    ensures TakesAny(lines, l, refs, e) <==> Owed(refs, ParseLine(lines[l]).sec)
  {
    assert forall d | 0 <= d < |refs| ::
      Takes(lines, l, refs[d]) <==> refs[d].SectionRef? && EqNoCase(refs[d].sec, ParseLine(lines[l]).sec);
  }

  lemma DroppedIs(lines: seq<string>, l: nat, refs: seq<Ref>)
    requires l < |lines|
    ensures Dropped(lines, l, refs) <==>
              DropsAlone(lines, l, refs) || (!NonBlank(lines[l]) && l + 1 < |lines| && DropsHeader(lines, l + 1, refs))
  {
    if ParseLine(lines[l]).Header? {
      TakesOwed(lines, l, refs, |refs|);
      assert forall d | 0 <= d < |refs| && refs[d].KeyRef? :: !Hits(lines, l, refs[d]);
    } else {
      assert forall d | 0 <= d < |refs| ::
        Takes(lines, l, refs[d]) <==> refs[d].KeyRef? && refs[d].removed && Hits(lines, l, refs[d]);
    }
  }

  /** Scans one line for every record. */
  method BindLine(ghost lines: seq<string>, ghost refs: seq<Ref>, l: nat, li: LineInfo, cursec: string,
                  wasRemoved: bool, dr: array<DirtyRef>)
    returns (drop: bool, inRemoved: bool)
    requires l < |lines| && li == LineInfoOf(lines[l]) && cursec == SecAt(lines, l + 1)
    requires wasRemoved == InRemoved(lines, l, refs)
    requires Bound(dr[..], lines, l, refs)
    modifies dr
    ensures Bound(dr[..], lines, l + 1, refs)
    ensures drop <==> DropsAlone(lines, l, refs)
    ensures inRemoved == InRemoved(lines, l + 1, refs)
  {
    drop := false;
    inRemoved := wasRemoved && li.kind != 1;
    assert dr.Length == |dr[..]| == |refs|;
    for e := 0 to dr.Length
      invariant forall d | 0 <= d < e :: BoundTo(dr[d], lines, l + 1, refs[d]) && !dr[d].done
      invariant forall d | e <= d < dr.Length :: BoundTo(dr[d], lines, l, refs[d]) && !dr[d].done
      invariant drop <==> TakesAny(lines, l, refs, e)
      invariant inRemoved <==> if li.kind == 1 then drop else wasRemoved
    {
      var d, hit := UpdateRef(dr[e], lines, l, li, cursec);
      TakesStep(lines, l, refs, e);
      dr[e] := d;
      if hit {
        drop := true;
        if li.kind == 1 {
          inRemoved := true;
        }
      }
    }
    if li.kind == 1 {
      TakesOwed(lines, l, refs, |refs|);
    }
    if inRemoved && li.kind != 1 && li.nonblank {
      drop := true;
    }
  }

  lemma TakesStep(lines: seq<string>, l: nat, refs: seq<Ref>, e: nat)
    requires l < |lines| && e < |refs|
    ensures TakesAny(lines, l, refs, e + 1) <==> TakesAny(lines, l, refs, e) || Takes(lines, l, refs[e])
  {
  }

  // The line arrays, filled in
  predicate SplitInto(text: string, loff: seq<int>, llen: seq<int>, lines: seq<string>) {
    |loff| == |llen| == |lines| && forall k | 0 <= k < |lines| :: LineIs(text, loff[k], llen[k], lines[k])
  }

  method ClassifyAt(text: string, ghost lines: seq<string>, loff: seq<int>, llen: seq<int>, l: nat) returns (li: LineInfo)
    requires SplitInto(text, loff, llen, lines) && l < |lines|
    ensures li == LineInfoOf(lines[l])
  {
    assert LineIs(text, loff[l], llen[l], lines[l]);
    li := ClassifyLine(text[loff[l]..loff[l] + llen[l]]);
  }

  // Every record is bound to the first l lines and none has been written
  predicate Bound(ds: seq<DirtyRef>, lines: seq<string>, l: nat, refs: seq<Ref>)
    requires l <= |lines|
  {
    AllBound(ds, lines, l, refs) && forall d | 0 <= d < |ds| :: !ds[d].done
  }

  method BindAll(text: string, ghost lines: seq<string>, ghost refs: seq<Ref>, loff: seq<int>, llen: seq<int>,
                 dr: array<DirtyRef>, drop: array<bool>)
    requires SplitInto(text, loff, llen, lines) && drop.Length == |lines|
    requires Bound(dr[..], lines, 0, refs)
    modifies dr, drop
    ensures Bound(dr[..], lines, |lines|, refs)
    ensures forall k | 0 <= k < |lines| :: drop[k] == DropsAlone(lines, k, refs)
  {
    hide SplitInto, Bound, DropsAlone, SecAt, InRemoved, LineInfoOf, ParseLine;
    var cursec, inRemoved := StartOfFile(lines, refs);
    for l := 0 to drop.Length
      invariant Bound(dr[..], lines, l, refs)
      invariant cursec == SecAt(lines, l) && inRemoved == InRemoved(lines, l, refs)
      invariant forall k | 0 <= k < l :: drop[k] == DropsAlone(lines, k, refs)
    {
      var li := ClassifyAt(text, lines, loff, llen, l);
      cursec := NextSection(lines, l, li, cursec);
      var dropIt;
      dropIt, inRemoved := BindLine(lines, refs, l, li, cursec, inRemoved, dr);
      drop[l] := dropIt;
    }
  }

  method StartOfFile(ghost lines: seq<string>, ghost refs: seq<Ref>) returns (cursec: string, inRemoved: bool)
    ensures cursec == SecAt(lines, 0) && inRemoved == InRemoved(lines, 0, refs)
  {
    cursec, inRemoved := "", false;
  }

  method NextSection(ghost lines: seq<string>, ghost l: nat, li: LineInfo, cursec: string) returns (next: string)
    requires l < |lines| && li == LineInfoOf(lines[l]) && cursec == SecAt(lines, l)
    ensures next == SecAt(lines, l + 1)
  {
    next := if li.kind == 1 then li.sec else cursec;
  }

  // ---- settling

  // Nothing to do for a record whose line is not in the file and that writes none
  predicate Idle(d: DirtyRef) {
    !Live(d.ref) && d.replaceLine < 0
  }

  method SettleUnset(dr: array<DirtyRef>)
    modifies dr
    ensures forall d | 0 <= d < dr.Length :: dr[d] == old(dr[d]).(done := old(dr[d].done) || Idle(old(dr[d])))
  {
    for e := 0 to dr.Length
      invariant forall d | 0 <= d < e :: dr[d] == old(dr[d]).(done := old(dr[d].done) || Idle(old(dr[d])))
      invariant forall d | e <= d < dr.Length :: dr[d] == old(dr[d])
    {
      if (dr[e].ref.SectionRef? || dr[e].ref.removed) && dr[e].replaceLine < 0 {
        dr[e] := dr[e].(done := true);
      }
    }
  }

  lemma InfoIs(raw: string)
    ensures LineInfoOf(raw).kind == 1 <==> ParseLine(raw).Header?
    ensures LineInfoOf(raw).nonblank <==> NonBlank(raw)
  {
  }

  /** The blank line above a removed header goes as well. */
  method DropSeparators(text: string, ghost lines: seq<string>, ghost refs: seq<Ref>, loff: seq<int>, llen: seq<int>,
                        drop: array<bool>)
    requires SplitInto(text, loff, llen, lines) && drop.Length == |lines|
    requires forall k | 0 <= k < |lines| :: drop[k] == DropsAlone(lines, k, refs)
    modifies drop
    ensures forall k | 0 <= k < |lines| :: drop[k] == Dropped(lines, k, refs)
  {
    hide *;
    var l := 1;
    while l < drop.Length
      invariant 1 <= l
      invariant drop.Length > 0 ==> l <= drop.Length
      invariant forall k | 0 <= k < l - 1 < drop.Length :: drop[k] == Dropped(lines, k, refs)
      invariant forall k | l - 1 <= k < drop.Length :: drop[k] == DropsAlone(lines, k, refs)
    {
      SeparatorStep(lines, refs, l);
      if drop[l] {
        var hi := ClassifyAt(text, lines, loff, llen, l);
        InfoIs(lines[l]);
        InfoIs(lines[l - 1]);
        if hi.kind == 1 {
          var pi := ClassifyAt(text, lines, loff, llen, l - 1);
          if !pi.nonblank {
            drop[l - 1] := true;
          }
        }
      }
      l := l + 1;
    }
    if drop.Length > 0 {
      LastLineAlone(lines, refs);
    }
  }

  lemma LastLineAlone(lines: seq<string>, refs: seq<Ref>)
    requires |lines| > 0
    ensures Dropped(lines, |lines| - 1, refs) <==> DropsAlone(lines, |lines| - 1, refs)
  {
    DroppedIs(lines, |lines| - 1, refs);
  }

  lemma SeparatorStep(lines: seq<string>, refs: seq<Ref>, l: nat)
    requires 1 <= l < |lines|
    ensures Dropped(lines, l - 1, refs) <==>
              DropsAlone(lines, l - 1, refs)
              || (DropsAlone(lines, l, refs) && ParseLine(lines[l]).Header? && !NonBlank(lines[l - 1]))
  {
    DroppedIs(lines, l - 1, refs);
    if ParseLine(lines[l]).Header? {
      TakesOwed(lines, l, refs, |refs|);
    }
  }

  // ---- writing

  // memcpy of s to out + off
  method Memcpy(out: array<char>, off: nat, s: string) returns (off': nat)
    requires off + |s| <= out.Length
    modifies out
    ensures off' == off + |s| && out[..off'] == old(out[..off]) + s
  {
    for i := 0 to |s|
      invariant out[..off] == old(out[..off])
      invariant out[off..off + i] == s[..i]
    {
      out[off + i] := s[i];
    }
    off' := off + |s|;
    assert out[..off'] == out[..off] + out[off..off + |s|];
  }

  /** snprintf at out + off with room for the terminator. */
  method Snprintf(out: array<char>, off: nat, s: string) returns (off': nat)
    requires off + |s| < out.Length
    modifies out
    ensures off' == off + |s| && out[..off'] == old(out[..off]) + s
  {
    off' := Memcpy(out, off, s);
    out[off'] := '\0';
  }

  lemma {:induction false} UnlinesPrefix(a: seq<string>, b: seq<string>)
    requires a <= b
    ensures Unlines(a) <= Unlines(b)
  {
    assert b == a + b[|a|..];
    UnlinesConcat(a, b[|a|..]);
  }

  lemma UnlinesPush(acc: seq<string>, line: string)
    ensures Unlines(acc + [line]) == Unlines(acc) + line + "\n"
  {
    UnlinesConcat(acc, [line]);
    assert [line][1..] == [];
    assert Unlines([line]) == line + "\n";
  }

  /** Writes one whole line as a formatted write. */
  method PutLine(out: array<char>, off: nat, ghost acc: seq<string>, line: string, ghost final: seq<string>)
    returns (off': nat)
    requires off <= out.Length && out[..off] == Unlines(acc)
    requires acc + [line] <= final && |Unlines(final)| < out.Length
    modifies out
    ensures off' <= out.Length && out[..off'] == Unlines(acc + [line])
  {
    UnlinesPush(acc, line);
    UnlinesPrefix(acc + [line], final);
    off' := Snprintf(out, off, line + "\n");
  }

  // ---- keys that have no line yet

  lemma {:induction false} LandingConcat(lines: seq<string>, a: seq<Ref>, b: seq<Ref>, p: Place)
    ensures Landing(lines, a + b, p) == Landing(lines, a, p) + Landing(lines, b, p)
  {
    hide Lands;
    if a == [] {
      assert a + b == b;
    } else {
      assert (a + b)[0] == a[0] && (a + b)[1..] == a[1..] + b;
      LandingConcat(lines, a[1..], b, p);
      var one := if Lands(lines, a[0], p) then [a[0]] else [];
      assert one + (Landing(lines, a[1..], p) + Landing(lines, b, p)) == one + Landing(lines, a[1..], p) + Landing(lines, b, p);
    }
  }

  lemma {:induction false} KeyLinesConcat(a: seq<Ref>, b: seq<Ref>)
    ensures KeyLines(a + b) == KeyLines(a) + KeyLines(b)
  {
    if a == [] {
      assert a + b == b;
    } else {
      assert (a + b)[0] == a[0] && (a + b)[1..] == a[1..] + b;
      KeyLinesConcat(a[1..], b);
    }
  }

  // The keys of the first e references of sub that land at p
  function Landed(lines: seq<string>, sub: seq<Ref>, p: Place, e: nat): seq<string>
    requires e <= |sub|
  {
    KeyLines(Landing(lines, sub[..e], p))
  }

  lemma LandedStep(lines: seq<string>, sub: seq<Ref>, p: Place, e: nat)
    requires e < |sub|
    ensures Landed(lines, sub, p, e + 1)
         == Landed(lines, sub, p, e) + if Lands(lines, sub[e], p) then [KeyLine(sub[e])] else []
  {
    var rs := Landing(lines, [sub[e]], p);
    assert sub[..e + 1] == sub[..e] + [sub[e]];
    LandingConcat(lines, sub[..e], [sub[e]], p);
    KeyLinesConcat(Landing(lines, sub[..e], p), rs);
    assert [sub[e]][1..] == [];
    assert rs == if Lands(lines, sub[e], p) then [sub[e]] else [];
    if Lands(lines, sub[e], p) {
      assert KeyLines(rs) == [KeyLine(sub[e])] + KeyLines(rs[1..]);
    }
  }

  lemma LandedAll(lines: seq<string>, sub: seq<Ref>, p: Place, e: nat)
    requires e <= |sub|
    ensures Landed(lines, sub, p, e) <= KeyLines(Landing(lines, sub, p))
    ensures e == |sub| ==> Landed(lines, sub, p, e) == KeyLines(Landing(lines, sub, p))
    ensures e == 0 ==> Landed(lines, sub, p, e) == []
  {
    assert sub == sub[..e] + sub[e..];
    LandingConcat(lines, sub[..e], sub[e..], p);
    KeyLinesConcat(Landing(lines, sub[..e], p), Landing(lines, sub[e..], p));
    assert e == |sub| ==> sub[..e] == sub;
    assert sub[..0] == [];
  }

  lemma LandedFits(lines: seq<string>, sub: seq<Ref>, p: Place, e: nat, acc: seq<string>, final: seq<string>)
    requires e < |sub| && Lands(lines, sub[e], p)
    requires acc + KeyLines(Landing(lines, sub, p)) <= final
    ensures acc + Landed(lines, sub, p, e) + [KeyLine(sub[e])] <= final
    ensures acc + Landed(lines, sub, p, e) + [KeyLine(sub[e])] == acc + Landed(lines, sub, p, e + 1)
  {
    hide *;
    LandedStep(lines, sub, p, e);
    LandedAll(lines, sub, p, e + 1);
    Assoc(acc, Landed(lines, sub, p, e), [KeyLine(sub[e])]);
    PrefixUnder(acc, Landed(lines, sub, p, e + 1), KeyLines(Landing(lines, sub, p)), final);
  }

  lemma Assoc(a: seq<string>, b: seq<string>, c: seq<string>)
    ensures a + b + c == a + (b + c)
  {
  }

  lemma PrefixUnder(acc: seq<string>, a: seq<string>, b: seq<string>, final: seq<string>)
    requires a <= b && acc + b <= final
    ensures acc + a <= final
  {
    assert b == a + b[|a|..];
    assert acc + b == acc + a + b[|a|..];
  }

  // ---- which records are done

  /** r, which has no line in the file, has been written when the output has
      reached `stage`: -1 before the top of the file, l before line l. */
  predicate WrittenBy(lines: seq<string>, stage: int, r: Ref) {
    stage >= 0 && Written(lines, stage, r)
  }

  // The records of the first e references are one stage ahead of the others.
  predicate DoneUpTo(ds: seq<DirtyRef>, lines: seq<string>, refs: seq<Ref>, stage: int, e: nat) {
    && |ds| == |refs|
    && forall d | 0 <= d < |refs| && LastHit(lines, |lines|, refs[d]) < 0 ::
         ds[d].done <==> !Live(refs[d]) || WrittenBy(lines, if d < e then stage + 1 else stage, refs[d])
  }

  function PlaceOf(stage: int): Place {
    if stage < 0 then AtTop else AfterLine(stage)
  }

  lemma StageStep(lines: seq<string>, stage: int, r: Ref)
    requires -1 <= stage && Live(r) && LastHit(lines, |lines|, r) < 0
    ensures WrittenBy(lines, stage + 1, r) <==> WrittenBy(lines, stage, r) || Lands(lines, r, PlaceOf(stage))
    ensures Lands(lines, r, PlaceOf(stage)) ==> !WrittenBy(lines, stage, r)
  {
  }

  lemma LandsCheck(d: DirtyRef, lines: seq<string>, stage: int, r: Ref)
    requires -1 <= stage && BoundTo(d, lines, |lines|, r)
    requires d.replaceLine < 0 ==> (d.done <==> !Live(r) || WrittenBy(lines, stage, r))
    ensures Lands(lines, r, PlaceOf(stage)) <==>
              r.KeyRef? && !d.done && d.replaceLine < 0
              && (if stage < 0 then r.sec == "" && d.appendLine < 0 else d.appendLine == stage)
    ensures d.replaceLine < 0 && Live(r) ==>
              (WrittenBy(lines, stage + 1, r) <==> WrittenBy(lines, stage, r) || Lands(lines, r, PlaceOf(stage)))
  {
    if d.replaceLine < 0 && Live(r) {
      StageStep(lines, stage, r);
    }
  }

  // The records are bound, and done up to record e of this stage.
  predicate Ready(ds: seq<DirtyRef>, lines: seq<string>, refs: seq<Ref>, stage: int, e: nat) {
    AllBound(ds, lines, |lines|, refs) && DoneUpTo(ds, lines, refs, stage, e)
  }

  // The output is `acc` and what the first e references add at this stage.
  ghost predicate Emitted(text: string, lines: seq<string>, refs: seq<Ref>, stage: int, e: nat, acc: seq<string>) {
    e <= |refs| && text == Unlines(acc + Landed(lines, refs, PlaceOf(stage), e))
  }

  ghost predicate RoomFor(lines: seq<string>, refs: seq<Ref>, stage: int, acc: seq<string>, final: seq<string>,
                          cap: nat)
  {
    acc + KeyLines(Landing(lines, refs, PlaceOf(stage))) <= final && |Unlines(final)| < cap
  }

  /** The two loops that write keys without a line: those of the global section
      that have nowhere to go, at the top (stage -1), and those to append after
      line `stage`. */
  method WritePending(ghost lines: seq<string>, ghost refs: seq<Ref>, stage: int, dr: array<DirtyRef>, out: array<char>,
                      off0: nat, ghost acc: seq<string>, ghost final: seq<string>)
    returns (off: nat)
    requires -1 <= stage && dr.Length == |refs|
    requires Ready(dr[..], lines, refs, stage, 0)
    requires off0 <= out.Length && out[..off0] == Unlines(acc)
    requires RoomFor(lines, refs, stage, acc, final, out.Length)
    modifies dr, out
    ensures Ready(dr[..], lines, refs, stage + 1, 0)
    ensures off <= out.Length
    ensures out[..off] == Unlines(acc + KeyLines(Landing(lines, refs, PlaceOf(stage))))
  {
    hide *;
    off := off0;
    EmittedNone(out[..off], lines, refs, stage, acc);
    for e := 0 to dr.Length
      invariant Ready(dr[..], lines, refs, stage, e)
      invariant off <= out.Length && Emitted(out[..off], lines, refs, stage, e, acc)
    {
      off := WriteOne(lines, refs, stage, e, dr, out, off, acc, final);
    }
    EmittedEvery(out[..off], lines, refs, stage, acc);
    ReadyNext(dr[..], lines, refs, stage);
  }

  lemma EmittedNone(text: string, lines: seq<string>, refs: seq<Ref>, stage: int, acc: seq<string>)
    requires text == Unlines(acc)
    ensures Emitted(text, lines, refs, stage, 0, acc)
  {
    LandedAll(lines, refs, PlaceOf(stage), 0);
    assert acc + [] == acc;
  }

  lemma EmittedEvery(text: string, lines: seq<string>, refs: seq<Ref>, stage: int, acc: seq<string>)
    requires Emitted(text, lines, refs, stage, |refs|, acc)
    ensures text == Unlines(acc + KeyLines(Landing(lines, refs, PlaceOf(stage))))
  {
    LandedAll(lines, refs, PlaceOf(stage), |refs|);
  }

  lemma ReadyNext(ds: seq<DirtyRef>, lines: seq<string>, refs: seq<Ref>, stage: int)
    requires Ready(ds, lines, refs, stage, |refs|)
    ensures Ready(ds, lines, refs, stage + 1, 0)
  {
  }

  method WriteOne(ghost lines: seq<string>, ghost refs: seq<Ref>, stage: int, e: nat, dr: array<DirtyRef>, out: array<char>,
                  off0: nat, ghost acc: seq<string>, ghost final: seq<string>)
    returns (off: nat)
    requires -1 <= stage && e < dr.Length == |refs|
    requires Ready(dr[..], lines, refs, stage, e)
    requires off0 <= out.Length && Emitted(out[..off0], lines, refs, stage, e, acc)
    requires RoomFor(lines, refs, stage, acc, final, out.Length)
    modifies dr, out
    ensures Ready(dr[..], lines, refs, stage, e + 1)
    ensures off <= out.Length && Emitted(out[..off], lines, refs, stage, e + 1, acc)
  {
    hide *;
    off := off0;
    ghost var ds := dr[..];
    ReadyLands(ds, lines, refs, stage, e);
    LandedStep(lines, refs, PlaceOf(stage), e);
    if dr[e].ref.KeyRef? && !dr[e].done && dr[e].replaceLine < 0
       && (if stage < 0 then dr[e].ref.sec == "" && dr[e].appendLine < 0 else dr[e].appendLine == stage) {
      EmittedRoom(lines, refs, stage, e, acc, final, out.Length, out[..off]);
      off := PutLine(out, off, acc + Landed(lines, refs, PlaceOf(stage), e), KeyLine(dr[e].ref), final);
      dr[e] := dr[e].(done := true);
      EmittedPush(out[..off], lines, refs, stage, e, acc);
      assert dr[..] == ds[e := ds[e].(done := true)];
    } else {
      EmittedSame(out[..off], lines, refs, stage, e, acc);
    }
    DoneStep(ds, dr[..], lines, refs, stage, e);
  }

  lemma EmittedRoom(lines: seq<string>, refs: seq<Ref>, stage: int, e: nat, acc: seq<string>, final: seq<string>,
                    cap: nat, text: string)
    requires e < |refs| && Lands(lines, refs[e], PlaceOf(stage))
    requires RoomFor(lines, refs, stage, acc, final, cap) && Emitted(text, lines, refs, stage, e, acc)
    ensures acc + Landed(lines, refs, PlaceOf(stage), e) + [KeyLine(refs[e])] <= final && |Unlines(final)| < cap
    ensures text == Unlines(acc + Landed(lines, refs, PlaceOf(stage), e))
  {
    LandedFits(lines, refs, PlaceOf(stage), e, acc, final);
  }

  lemma EmittedPush(text: string, lines: seq<string>, refs: seq<Ref>, stage: int, e: nat, acc: seq<string>)
    requires e < |refs| && Lands(lines, refs[e], PlaceOf(stage))
    requires text == Unlines(acc + Landed(lines, refs, PlaceOf(stage), e) + [KeyLine(refs[e])])
    ensures Emitted(text, lines, refs, stage, e + 1, acc)
  {
    LandedStep(lines, refs, PlaceOf(stage), e);
    assert acc + Landed(lines, refs, PlaceOf(stage), e) + [KeyLine(refs[e])]
        == acc + (Landed(lines, refs, PlaceOf(stage), e) + [KeyLine(refs[e])]);
  }

  lemma EmittedSame(text: string, lines: seq<string>, refs: seq<Ref>, stage: int, e: nat, acc: seq<string>)
    requires e < |refs| && !Lands(lines, refs[e], PlaceOf(stage))
    requires Emitted(text, lines, refs, stage, e, acc)
    ensures Emitted(text, lines, refs, stage, e + 1, acc)
  {
    LandedStep(lines, refs, PlaceOf(stage), e);
    assert Landed(lines, refs, PlaceOf(stage), e) + [] == Landed(lines, refs, PlaceOf(stage), e);
  }

  lemma ReadyLands(ds: seq<DirtyRef>, lines: seq<string>, refs: seq<Ref>, stage: int, e: nat)
    requires -1 <= stage && e < |ds| && Ready(ds, lines, refs, stage, e)
    ensures |ds| == |refs| && ds[e].ref == refs[e]
    ensures Lands(lines, refs[e], PlaceOf(stage)) <==>
              refs[e].KeyRef? && !ds[e].done && ds[e].replaceLine < 0
              && (if stage < 0 then refs[e].sec == "" && ds[e].appendLine < 0 else ds[e].appendLine == stage)
  {
    assert BoundTo(ds[e], lines, |lines|, refs[e]);
    LandsCheck(ds[e], lines, stage, refs[e]);
  }

  // Setting `done` on the record that lands moves it one stage ahead.
  lemma DoneStep(ds: seq<DirtyRef>, ds': seq<DirtyRef>, lines: seq<string>, refs: seq<Ref>, stage: int, e: nat)
    requires -1 <= stage && e < |ds| && |ds| == |refs|
    requires Ready(ds, lines, refs, stage, e)
    requires ds' == if Lands(lines, refs[e], PlaceOf(stage)) then ds[e := ds[e].(done := true)] else ds
    ensures Ready(ds', lines, refs, stage, e + 1)
  {
    hide *;
    DoneStepAt(ds[e], ds'[e], lines, refs, stage, e, ds);
    assert ds' == ds[e := ds'[e]];
    ReadyUpdate(ds, ds'[e], lines, refs, stage, e);
  }

  lemma ReadyUpdate(ds: seq<DirtyRef>, d': DirtyRef, lines: seq<string>, refs: seq<Ref>, stage: int, e: nat)
    requires e < |ds| && |ds| == |refs|
    requires Ready(ds, lines, refs, stage, e)
    requires BoundTo(d', lines, |lines|, refs[e])
    requires LastHit(lines, |lines|, refs[e]) < 0 ==>
               (d'.done <==> !Live(refs[e]) || WrittenBy(lines, stage + 1, refs[e]))
    ensures Ready(ds[e := d'], lines, refs, stage, e + 1)
  {
    hide BoundTo, WrittenBy, LastHit, Live;
    var ds' := ds[e := d'];
    forall d | 0 <= d < |refs|
      ensures BoundTo(ds'[d], lines, |lines|, refs[d])
    {
      if d != e {
        assert BoundTo(ds[d], lines, |lines|, refs[d]);
      }
    }
  }

  lemma DoneStepAt(d: DirtyRef, d': DirtyRef, lines: seq<string>, refs: seq<Ref>, stage: int, e: nat,
                   ds: seq<DirtyRef>)
    requires -1 <= stage && e < |ds| && d == ds[e]
    requires Ready(ds, lines, refs, stage, e)
    requires d' == if Lands(lines, refs[e], PlaceOf(stage)) then d.(done := true) else d
    ensures BoundTo(d', lines, |lines|, refs[e])
    ensures LastHit(lines, |lines|, refs[e]) < 0 ==>
              (d'.done <==> !Live(refs[e]) || WrittenBy(lines, stage + 1, refs[e]))
  {
    assert BoundTo(ds[e], lines, |lines|, refs[e]);
    LandsCheck(d, lines, stage, refs[e]);
  }

  // ---- one line of the file

  lemma RepStart(lines: seq<string>, l: nat, refs: seq<Ref>)
    ensures RepFrom(lines, l, refs, 0) == Rep(lines, l, refs)
  {
    hide RepFrom;
  }

  lemma RepNext(lines: seq<string>, l: nat, refs: seq<Ref>, d: nat)
    requires d < |refs|
    ensures RepFrom(lines, l, refs, d)
         == if LastHit(lines, |lines|, refs[d]) == l then d else RepFrom(lines, l, refs, d + 1)
  {
    hide LastHit;
  }

  lemma RepEnd(lines: seq<string>, l: nat, refs: seq<Ref>)
    ensures RepFrom(lines, l, refs, |refs|) == |refs|
  {
  }

  /** First record whose replace_line is l, or -1. */
  method FindRep(ghost lines: seq<string>, ghost refs: seq<Ref>, dr: array<DirtyRef>, l: nat) returns (rep: int)
    requires dr.Length == |refs| && AllBound(dr[..], lines, |lines|, refs)
    ensures rep < dr.Length
    ensures Rep(lines, l, refs) == if rep < 0 then |refs| else rep
  {
    hide *;
    rep := -1;
    var d := 0;
    RepStart(lines, l, refs);
    while d < dr.Length
      invariant d <= dr.Length && RepFrom(lines, l, refs, d) == Rep(lines, l, refs)
    {
      BoundLine(dr[..], lines, refs, d);
      RepNext(lines, l, refs, d);
      if dr[d].replaceLine == l {
        return d;
      }
      d := d + 1;
    }
    RepEnd(lines, l, refs);
  }

  lemma BoundLine(ds: seq<DirtyRef>, lines: seq<string>, refs: seq<Ref>, d: nat)
    requires AllBound(ds, lines, |lines|, refs) && d < |ds|
    ensures ds[d].replaceLine == LastHit(lines, |lines|, refs[d]) && ds[d].ref == refs[d]
    ensures ds[d].secInFile == InFile(lines, |lines|, refs[d].sec)
    ensures refs[d].KeyRef? && ds[d].replaceLine >= 0 ==> OffsetsOf(ds[d], lines[ds[d].replaceLine])
  {
    assert BoundTo(ds[d], lines, |lines|, refs[d]);
  }

  /** Regenerates a bound line in place, with its comment when it still fits. */
  method WriteRebuilt(raw: string, d: DirtyRef, out: array<char>, off0: nat) returns (off: nat)
    requires d.ref.KeyRef? && OffsetsOf(d, raw) && KeyEnd(raw) <= |raw|
    requires off0 + |Rebuild(raw, d.ref)| + 1 < out.Length
    modifies out
    ensures off == off0 + |Rebuild(raw, d.ref)| + 1
    ensures out[..off] == old(out[..off0]) + Rebuild(raw, d.ref) + "\n"
  {
    KeyLineShape(raw);
    hide Rebuild, CommentOf, ComOff, ParseLine, KeyEnd;
    var vlen := |d.ref.value|;
    var keylen := d.repKeyEnd;
    var comlen := if d.repComOff >= 0 then |raw| - d.repComOff else 0;
    if keylen + 3 + vlen + comlen >= MAX_LINE {
      comlen := 0;
    }
    if keylen + 3 + vlen >= MAX_LINE {
      keylen := 0;
    }
    RebuildParts(raw, d, keylen, comlen);
    ghost var head := (if keylen > 0 then raw[..keylen] else d.ref.key) + " = " + d.ref.value;
    ghost var com := if comlen > 0 then CommentOf(raw) else "";
    off := WriteKeyValue(raw, d.ref, keylen, out, off0);
    off := WriteTail(if comlen > 0 then raw[d.repComOff..] else "", out, off);
    TextAssoc(old(out[..off0]), head, com, "\n");
  }

  lemma TextAssoc(a: string, b: string, c: string, d: string)
    ensures a + b + c + d == a + (b + c) + d
  {
  }

  method WriteKeyValue(raw: string, r: Ref, keylen: int, out: array<char>, off0: nat) returns (off: nat)
    requires r.KeyRef? && 0 <= keylen <= |raw|
    requires off0 + |(if keylen > 0 then raw[..keylen] else r.key) + " = " + r.value| < out.Length
    modifies out
    ensures off == off0 + |(if keylen > 0 then raw[..keylen] else r.key) + " = " + r.value|
    ensures out[..off] == old(out[..off0]) + ((if keylen > 0 then raw[..keylen] else r.key) + " = " + r.value)
  {
    if keylen > 0 {
      off := Memcpy(out, off0, raw[..keylen]);
      off := Snprintf(out, off, " = " + r.value);
      Assoc3(old(out[..off0]), raw[..keylen], " = " + r.value);
      Assoc3(raw[..keylen], " = ", r.value);
    } else {
      off := Snprintf(out, off0, r.key + " = " + r.value);
    }
  }

  // The comment run, if any, and the newline
  method WriteTail(com: string, out: array<char>, off0: nat) returns (off: nat)
    requires off0 + |com| + 1 < out.Length
    modifies out
    ensures off == off0 + |com| + 1
    ensures out[..off] == old(out[..off0]) + com + "\n"
  {
    off := off0;
    if |com| > 0 {
      off := Memcpy(out, off, com);
    }
    assert out[..off] == old(out[..off0]) + com;
    out[off] := '\n';
    off := off + 1;
  }

  lemma RebuildParts(raw: string, d: DirtyRef, keylen: int, comlen: int)
    requires d.ref.KeyRef? && OffsetsOf(d, raw) && KeyEnd(raw) <= |raw|
    requires ComOff(raw) >= 0 ==> ComOff(raw) < |raw|
    requires ComOff(raw) >= 0 <==> CommentOf(raw) != ""
    requires ParseLine(raw).key != ""
    requires keylen == if d.repKeyEnd + 3 + |d.ref.value| >= MAX_LINE then 0 else d.repKeyEnd
    requires var c := if d.repComOff >= 0 then |raw| - d.repComOff else 0;
             comlen == if d.repKeyEnd + 3 + |d.ref.value| + c >= MAX_LINE then 0 else c
    ensures comlen > 0 ==> 0 <= d.repComOff <= |raw| && raw[d.repComOff..] == CommentOf(raw)
    ensures 0 <= keylen <= |raw| && 0 <= comlen
    ensures Rebuild(raw, d.ref) == (if keylen > 0 then raw[..keylen] else d.ref.key) + " = " + d.ref.value
                                 + (if comlen > 0 then CommentOf(raw) else "")
  {
    if CommentOf(raw) != "" {
      assert |CommentOf(raw)| == |raw| - ComOff(raw);
    }
  }

  lemma ReadyMark(ds: seq<DirtyRef>, lines: seq<string>, refs: seq<Ref>, stage: int, d: nat)
    requires d < |ds| && |ds| == |refs| && Ready(ds, lines, refs, stage, 0) && ds[d].replaceLine >= 0
    ensures Ready(ds[d := ds[d].(done := true)], lines, refs, stage, 0)
  {
    var ds' := ds[d := ds[d].(done := true)];
    BoundLine(ds, lines, refs, d);
    forall e | 0 <= e < |refs|
      ensures BoundTo(ds'[e], lines, |lines|, refs[e])
    {
      assert BoundTo(ds[e], lines, |lines|, refs[e]);
    }
  }

  /** What becomes of line l itself. */
  method WriteHead(text: string, ghost lines: seq<string>, ghost refs: seq<Ref>, loff: seq<int>, llen: seq<int>,
                   l: nat, drop: bool, dr: array<DirtyRef>, out: array<char>, off0: nat,
                   ghost acc: seq<string>, ghost final: seq<string>)
    returns (off: nat)
    requires SplitInto(text, loff, llen, lines) && l < |lines| == |loff| == |llen| && dr.Length == |refs|
    requires drop == Dropped(lines, l, refs)
    requires Ready(dr[..], lines, refs, l, 0)
    requires off0 <= out.Length && out[..off0] == Unlines(acc)
    requires acc + LineHead(lines, l, refs) <= final && |Unlines(final)| < out.Length
    modifies dr, out
    ensures Ready(dr[..], lines, refs, l, 0)
    ensures off <= out.Length && out[..off] == Unlines(acc + LineHead(lines, l, refs))
  {
    var raw := SliceAt(text, lines, loff, llen, l);
    hide *;
    off := off0;
    var rep := FindReadyRep(lines, refs, dr, l, l);
    HeadRoom(lines, l, refs, acc, final);
    if drop {
      if rep >= 0 {
        MarkDone(lines, refs, l, dr, rep);
      }
      assert acc + [] == acc;
    } else if rep >= 0 && dr[rep].ref.KeyRef? {
      off := WriteRebuilt(raw, dr[rep], out, off);
      MarkDone(lines, refs, l, dr, rep);
    } else {
      off := WriteTail(raw, out, off);
    }
  }

  method FindReadyRep(ghost lines: seq<string>, ghost refs: seq<Ref>, dr: array<DirtyRef>, l: nat, ghost stage: int)
    returns (rep: int)
    requires dr.Length == |refs| && l < |lines| && Ready(dr[..], lines, refs, stage, 0)
    ensures rep < dr.Length && Rep(lines, l, refs) == if rep < 0 then |refs| else rep
    ensures rep >= 0 ==> dr[rep].ref == refs[rep] && dr[rep].replaceLine == l
    ensures rep >= 0 && refs[rep].KeyRef? ==> OffsetsOf(dr[rep], lines[l])
  {
    hide *;
    ReadyBound(dr[..], lines, refs, stage);
    rep := FindRep(lines, refs, dr, l);
    if rep >= 0 {
      BoundLine(dr[..], lines, refs, rep);
      RepLine(lines, l, refs);
    }
  }

  method MarkDone(ghost lines: seq<string>, ghost refs: seq<Ref>, ghost stage: int, dr: array<DirtyRef>, rep: nat)
    requires rep < dr.Length == |refs| && Ready(dr[..], lines, refs, stage, 0) && dr[rep].replaceLine >= 0
    modifies dr
    ensures Ready(dr[..], lines, refs, stage, 0)
  {
    hide *;
    ghost var ds := dr[..];
    ReadyMark(ds, lines, refs, stage, rep);
    dr[rep] := dr[rep].(done := true);
    assert dr[..] == ds[rep := ds[rep].(done := true)];
  }

  method SliceAt(text: string, ghost lines: seq<string>, loff: seq<int>, llen: seq<int>, l: nat) returns (raw: string)
    requires SplitInto(text, loff, llen, lines) && l < |lines|
    ensures raw == lines[l]
  {
    assert LineIs(text, loff[l], llen[l], lines[l]);
    raw := text[loff[l]..loff[l] + llen[l]];
  }

  lemma ReadyBound(ds: seq<DirtyRef>, lines: seq<string>, refs: seq<Ref>, stage: int)
    requires Ready(ds, lines, refs, stage, 0)
    ensures AllBound(ds, lines, |lines|, refs)
  {
  }

  lemma RepLine(lines: seq<string>, l: nat, refs: seq<Ref>)
    requires Rep(lines, l, refs) < |refs|
    ensures LastHit(lines, |lines|, refs[Rep(lines, l, refs)]) == l
  {
  }

  // The three outcomes for a line, each with the room it needs
  lemma HeadRoom(lines: seq<string>, l: nat, refs: seq<Ref>, acc: seq<string>, final: seq<string>)
    requires l < |lines| && acc + LineHead(lines, l, refs) <= final
    ensures Dropped(lines, l, refs) ==> LineHead(lines, l, refs) == []
    ensures !Dropped(lines, l, refs) && Rep(lines, l, refs) < |refs| && refs[Rep(lines, l, refs)].KeyRef? ==>
              && ParseLine(lines[l]).Bind? && KeyEnd(lines[l]) <= |lines[l]|
              && var line := Rebuild(lines[l], refs[Rep(lines, l, refs)]);
                 Unlines(acc + LineHead(lines, l, refs)) == Unlines(acc) + line + "\n"
                 && |Unlines(acc)| + |line| + 1 <= |Unlines(final)|
    ensures !Dropped(lines, l, refs) && (Rep(lines, l, refs) == |refs| || !refs[Rep(lines, l, refs)].KeyRef?) ==>
              && Unlines(acc + LineHead(lines, l, refs)) == Unlines(acc) + lines[l] + "\n"
              && |Unlines(acc)| + |lines[l]| + 1 <= |Unlines(final)|
  {
    if Rebuilds(lines, l, refs) {
      RebuildsKeyLine(lines, l, refs);
      UnlinesPush(acc, Rebuild(lines[l], refs[Rep(lines, l, refs)]));
    } else if !Dropped(lines, l, refs) {
      UnlinesPush(acc, lines[l]);
    }
    UnlinesPrefix(acc + LineHead(lines, l, refs), final);
  }

  lemma BodyRoom(lines: seq<string>, l: nat, refs: seq<Ref>)
    requires l < |lines|
    ensures var acc := Body(lines, l, refs) + LineHead(lines, l, refs);
            && acc <= SurgicalLines(lines, refs)
            && acc + KeyLines(Landing(lines, refs, PlaceOf(l))) == Body(lines, l + 1, refs)
            && acc + KeyLines(Landing(lines, refs, PlaceOf(l))) <= SurgicalLines(lines, refs)
  {
    var k := KeyLines(Landing(lines, refs, AfterLine(l)));
    BodyStep(lines, l, refs);
    Assoc(Body(lines, l, refs), LineHead(lines, l, refs), k);
    BodyBeforeEnd(lines, l + 1, refs);
    assert Body(lines, l, refs) + LineHead(lines, l, refs) <= Body(lines, l + 1, refs);
  }

  lemma BodyBeforeEnd(lines: seq<string>, l: nat, refs: seq<Ref>)
    requires l <= |lines|
    ensures Body(lines, l, refs) <= SurgicalLines(lines, refs)
  {
    BodyExtends(lines, l, |lines|, refs);
    NewSectionsExtend(lines, refs, 0, Body(lines, |lines|, refs));
  }

  method WriteLines(text: string, ghost lines: seq<string>, ghost refs: seq<Ref>, loff: seq<int>, llen: seq<int>,
                    dr: array<DirtyRef>, drop: array<bool>, out: array<char>, off0: nat)
    returns (off: nat)
    requires SplitInto(text, loff, llen, lines) && drop.Length == |lines| == |loff| == |llen| && dr.Length == |refs|
    requires forall k | 0 <= k < |lines| :: drop[k] == Dropped(lines, k, refs)
    requires Ready(dr[..], lines, refs, 0, 0)
    requires off0 <= out.Length && out[..off0] == Unlines(Body(lines, 0, refs))
    requires |Unlines(SurgicalLines(lines, refs))| < out.Length
    modifies dr, out
    ensures Ready(dr[..], lines, refs, |lines|, 0)
    ensures off <= out.Length && out[..off] == Unlines(Body(lines, |lines|, refs))
  {
    hide *;
    off := off0;
    ghost var final := SurgicalLines(lines, refs);
    for l := 0 to drop.Length
      invariant Ready(dr[..], lines, refs, l, 0)
      invariant off <= out.Length && out[..off] == Unlines(Body(lines, l, refs))
    {
      ghost var acc := Body(lines, l, refs) + LineHead(lines, l, refs);
      BodyRoom(lines, l, refs);
      off := WriteHead(text, lines, refs, loff, llen, l, drop[l], dr, out, off, Body(lines, l, refs), final);
      RoomIs(lines, refs, l, acc, final, out.Length);
      off := WritePending(lines, refs, l, dr, out, off, acc, final);
    }
  }

  lemma RoomIs(lines: seq<string>, refs: seq<Ref>, stage: int, acc: seq<string>, final: seq<string>, cap: nat)
    requires acc + KeyLines(Landing(lines, refs, PlaceOf(stage))) <= final && |Unlines(final)| < cap
    ensures RoomFor(lines, refs, stage, acc, final, cap)
  {
  }

  // ---- sections the file does not have

  /** In the section loop at reference d, with the inner loop at e: the records
      of sections opened so far are done. */
  predicate DoneNew(ds: seq<DirtyRef>, lines: seq<string>, refs: seq<Ref>, d: nat, e: nat)
    requires d <= |refs|
  {
    && |ds| == |refs|
    && forall k | 0 <= k < |refs| && LastHit(lines, |lines|, refs[k]) < 0 ::
         ds[k].done <==> !IsNew(lines, refs[k]) || OpenedBefore(lines, refs, d, refs[k].sec)
                         || (d <= k < e && EqNoCase(refs[d].sec, refs[k].sec))
  }

  predicate ReadyNew(ds: seq<DirtyRef>, lines: seq<string>, refs: seq<Ref>, d: nat, e: nat)
    requires d <= |refs|
  {
    AllBound(ds, lines, |lines|, refs) && DoneNew(ds, lines, refs, d, e)
  }

  lemma ReadyForNew(ds: seq<DirtyRef>, lines: seq<string>, refs: seq<Ref>)
    requires Ready(ds, lines, refs, |lines|, 0)
    ensures ReadyNew(ds, lines, refs, 0, 0)
  {
    forall k | 0 <= k < |refs| && LastHit(lines, |lines|, refs[k]) < 0
      ensures ds[k].done <==> !IsNew(lines, refs[k])
    {
      if Live(refs[k]) {
        WrittenOrNew(lines, refs[k]);
      }
    }
  }

  // What the loop's guard decides
  lemma OpensCheck(ds: seq<DirtyRef>, lines: seq<string>, refs: seq<Ref>, d: nat)
    requires d < |refs| && ReadyNew(ds, lines, refs, d, d)
    ensures |ds| == |refs| && ds[d].ref == refs[d]
    ensures Opens(lines, refs, d) <==>
              refs[d].KeyRef? && !ds[d].done && !ds[d].secInFile && refs[d].sec != ""
  {
    assert BoundTo(ds[d], lines, |lines|, refs[d]);
    if refs[d].KeyRef? && !ds[d].secInFile && refs[d].sec != "" {
      NotInFileNoHit(lines, refs[d]);
    }
    if IsNew(lines, refs[d]) {
      NewMeetsNothing(lines, refs[d]);
    }
  }

  lemma NotInFileNoHit(lines: seq<string>, r: Ref)
    requires r.KeyRef? && r.sec != "" && !InFile(lines, |lines|, r.sec)
    ensures LastHit(lines, |lines|, r) < 0
  {
    var h := LastHit(lines, |lines|, r);
    if h >= 0 {
      NotInFile(lines, |lines|, h, r.sec);
      assert false;
    }
  }

  // What the inner loop's guard decides, while section refs[d].sec is open
  lemma JoinsCheck(ds: seq<DirtyRef>, lines: seq<string>, refs: seq<Ref>, d: nat, e: nat)
    requires d <= e < |refs| && ReadyNew(ds, lines, refs, d, e) && Opens(lines, refs, d)
    ensures |ds| == |refs| && ds[e].ref == refs[e]
    ensures Lands(lines, refs[e], InNew(refs[d].sec)) <==>
              refs[e].KeyRef? && !ds[e].done && EqNoCase(refs[e].sec, refs[d].sec)
  {
    assert BoundTo(ds[e], lines, |lines|, refs[e]);
    if refs[e].KeyRef? && EqNoCase(refs[e].sec, refs[d].sec) {
      InFileCase(lines, |lines|, refs[e].sec, refs[d].sec);
      OpenedCase(lines, refs, d, refs[e].sec, refs[d].sec);
      NonEmptyCase(refs[e].sec, refs[d].sec);
      NotInFileNoHit(lines, refs[e]);
    }
  }

  lemma NonEmptyCase(a: string, b: string)
    requires EqNoCase(a, b)
    ensures a == "" <==> b == ""
  {
    assert |Lower(a)| == |Lower(b)|;
  }

  lemma {:induction false} InFileCase(lines: seq<string>, n: nat, a: string, b: string)
    requires n <= |lines| && EqNoCase(a, b)
    ensures InFile(lines, n, a) <==> InFile(lines, n, b)
  {
    hide ParseLine, Lower;
    if n > 0 {
      InFileCase(lines, n - 1, a, b);
    }
  }

  lemma NewUpdate(ds: seq<DirtyRef>, lines: seq<string>, refs: seq<Ref>, d: nat, e: nat)
    requires d <= e < |refs| && |ds| == |refs| && ReadyNew(ds, lines, refs, d, e) && Opens(lines, refs, d)
    ensures ReadyNew(if Lands(lines, refs[e], InNew(refs[d].sec)) then ds[e := ds[e].(done := true)] else ds,
                     lines, refs, d, e + 1)
  {
    BoundLine(ds, lines, refs, e);
    var d' := if Lands(lines, refs[e], InNew(refs[d].sec)) then ds[e].(done := true) else ds[e];
    assert BoundTo(ds[e], lines, |lines|, refs[e]);
    MarkedBound(ds[e], lines, refs[e]);
    NewUpdateAt(ds, lines, refs, d, e);
    hide *;
    NewSet(ds, d', lines, refs, d, e);
    assert ds[e := ds[e]] == ds;
  }

  lemma NewSet(ds: seq<DirtyRef>, d': DirtyRef, lines: seq<string>, refs: seq<Ref>, d: nat, e: nat)
    requires d <= e < |refs| && |ds| == |refs| && ReadyNew(ds, lines, refs, d, e)
    requires BoundTo(d', lines, |lines|, refs[e])
    requires LastHit(lines, |lines|, refs[e]) < 0 ==>
               (d'.done <==> !IsNew(lines, refs[e]) || OpenedBefore(lines, refs, d, refs[e].sec)
                             || EqNoCase(refs[d].sec, refs[e].sec))
    ensures ReadyNew(ds[e := d'], lines, refs, d, e + 1)
  {
    hide BoundTo, LastHit, IsNew, OpenedBefore, EqNoCase;
    var ds' := ds[e := d'];
    forall k | 0 <= k < |refs|
      ensures BoundTo(ds'[k], lines, |lines|, refs[k])
    {
      if k != e {
        assert BoundTo(ds[k], lines, |lines|, refs[k]);
      }
    }
  }

  lemma MarkedBound(d: DirtyRef, lines: seq<string>, r: Ref)
    requires BoundTo(d, lines, |lines|, r)
    ensures BoundTo(d.(done := true), lines, |lines|, r)
  {
  }

  lemma NewUpdateAt(ds: seq<DirtyRef>, lines: seq<string>, refs: seq<Ref>, d: nat, e: nat)
    requires d <= e < |refs| && |ds| == |refs| && ReadyNew(ds, lines, refs, d, e) && Opens(lines, refs, d)
    ensures var lands := Lands(lines, refs[e], InNew(refs[d].sec));
            LastHit(lines, |lines|, refs[e]) < 0 ==>
              ((lands || ds[e].done) <==> !IsNew(lines, refs[e]) || OpenedBefore(lines, refs, d, refs[e].sec)
                                           || EqNoCase(refs[d].sec, refs[e].sec))
  {
    JoinsCheck(ds, lines, refs, d, e);
  }

  lemma NewClosed(ds: seq<DirtyRef>, lines: seq<string>, refs: seq<Ref>, d: nat)
    requires d < |refs| && Opens(lines, refs, d) && ReadyNew(ds, lines, refs, d, |refs|)
    ensures ReadyNew(ds, lines, refs, d + 1, d + 1)
  {
    forall k | 0 <= k < |refs| && LastHit(lines, |lines|, refs[k]) < 0
      ensures ds[k].done <==> !IsNew(lines, refs[k]) || OpenedBefore(lines, refs, d + 1, refs[k].sec)
    {
      OpenedGrows(lines, refs, d, refs[k].sec);
      if k < d && IsNew(lines, refs[k]) && EqNoCase(refs[d].sec, refs[k].sec) {
        assert OpenedBefore(lines, refs, d, refs[k].sec);
      }
    }
  }

  lemma NewSkipped(ds: seq<DirtyRef>, lines: seq<string>, refs: seq<Ref>, d: nat)
    requires d < |refs| && !Opens(lines, refs, d) && ReadyNew(ds, lines, refs, d, d)
    ensures ReadyNew(ds, lines, refs, d + 1, d + 1)
  {
    forall k | 0 <= k < |refs| && LastHit(lines, |lines|, refs[k]) < 0
      ensures ds[k].done <==> !IsNew(lines, refs[k]) || OpenedBefore(lines, refs, d + 1, refs[k].sec)
    {
      OpenedGrows(lines, refs, d, refs[k].sec);
      OpenedStep(lines, refs, d, refs[k].sec);
    }
  }

  lemma OpenedGrows(lines: seq<string>, refs: seq<Ref>, d: nat, sec: string)
    requires d < |refs|
    ensures OpenedBefore(lines, refs, d + 1, sec) <==>
              OpenedBefore(lines, refs, d, sec) || (IsNew(lines, refs[d]) && EqNoCase(refs[d].sec, sec))
  {
  }

  lemma UnlinesNone()
    ensures Unlines([]) == ""
  {
  }

  // The bytes the separator test looks at
  lemma SeparatorBytes(acc: seq<string>)
    requires AllOneLine(acc)
    ensures var t := Unlines(acc);
            Separator(acc) == if |t| > 0 && !(|t| > 1 && t[|t| - 1] == '\n' && t[|t| - 2] == '\n') then [""] else []
  {
    hide Unlines;
    UnlinesNone();
    if acc != [] {
      var init, last := acc[..|acc| - 1], acc[|acc| - 1];
      assert acc == init + [last];
      UnlinesPush(init, last);
      var t := Unlines(acc);
      assert t[|t| - 1] == '\n';
      if last != "" {
        assert t[|t| - 2] == last[|last| - 1] && last[|last| - 1] in last;
        assert OneLine(acc[|acc| - 1]);
      } else if init != [] {
        var init2, last2 := init[..|init| - 1], init[|init| - 1];
        assert init == init2 + [last2];
        UnlinesPush(init2, last2);
        assert Unlines(init)[|Unlines(init)| - 1] == '\n';
      }
    }
  }

  // acc with what one new section adds is on the way to the final lines.
  lemma NewSectionRoom(lines: seq<string>, refs: seq<Ref>, d: nat, acc: seq<string>)
    requires d < |refs| && Opens(lines, refs, d)
    ensures acc + Separator(acc) + NewSection(lines, refs, d) <= NewSections(lines, refs, d, acc)
    ensures NewSections(lines, refs, d, acc)
         == NewSections(lines, refs, d + 1, acc + Separator(acc) + NewSection(lines, refs, d))
  {
    NewSectionsExtend(lines, refs, d + 1, acc + Separator(acc) + NewSection(lines, refs, d));
  }

  // "[section]" after the separator, before the section's keys
  function Opened(refs: seq<Ref>, d: nat, acc: seq<string>): seq<string>
    requires d < |refs|
  {
    acc + Separator(acc) + ["[" + refs[d].sec + "]"]
  }

  lemma OpenedRoom(lines: seq<string>, refs: seq<Ref>, d: nat, acc: seq<string>, final: seq<string>)
    requires d < |refs| && acc + Separator(acc) + NewSection(lines, refs, d) <= final
    ensures acc + Separator(acc) <= final
    ensures Opened(refs, d, acc) <= final
    ensures Opened(refs, d, acc) + KeyLines(Landing(lines, refs[d..], InNew(refs[d].sec)))
         == acc + Separator(acc) + NewSection(lines, refs, d)
  {
    var k := KeyLines(Landing(lines, refs[d..], InNew(refs[d].sec)));
    Assoc(acc + Separator(acc), ["[" + refs[d].sec + "]"], k);
    PrefixUnder(acc + Separator(acc), [], NewSection(lines, refs, d), final);
    assert acc + Separator(acc) + [] == acc + Separator(acc);
  }

  method WriteOpening(out: array<char>, off0: nat, ghost refs: seq<Ref>, ghost d: nat, sec: string,
                      ghost acc: seq<string>, ghost final: seq<string>)
    returns (off: nat)
    requires d < |refs| && sec == refs[d].sec && AllOneLine(acc)
    requires off0 <= out.Length && out[..off0] == Unlines(acc)
    requires acc + Separator(acc) <= final && Opened(refs, d, acc) <= final && |Unlines(final)| < out.Length
    modifies out
    ensures off <= out.Length && out[..off] == Unlines(Opened(refs, d, acc))
  {
    hide SurgicalLines, AllOneLine;
    off := off0;
    SeparatorBytes(acc);
    ghost var text := out[..off];
    assert off > 1 ==> out[off - 1] == text[|text| - 1] && out[off - 2] == text[|text| - 2];
    if off > 0 && !(off > 1 && out[off - 1] == '\n' && out[off - 2] == '\n') {
      UnlinesPush(acc, "");
      UnlinesPrefix(acc + Separator(acc), final);
      out[off] := '\n';
      off := off + 1;
      assert out[..off] == text + "" + "\n";
    } else {
      assert acc + [] == acc;
    }
    off := PutLine(out, off, acc + Separator(acc), "[" + sec + "]", final);
  }

  /** The keys of a new section. */
  method WriteSectionKeys(ghost lines: seq<string>, ghost refs: seq<Ref>, d: nat, dr: array<DirtyRef>, out: array<char>,
                          off0: nat, ghost acc: seq<string>, ghost final: seq<string>)
    returns (off: nat)
    requires d < dr.Length == |refs| && Opens(lines, refs, d) && ReadyNew(dr[..], lines, refs, d, d)
    requires off0 <= out.Length && out[..off0] == Unlines(acc)
    requires acc + KeyLines(Landing(lines, refs[d..], InNew(refs[d].sec))) <= final && |Unlines(final)| < out.Length
    modifies dr, out
    ensures ReadyNew(dr[..], lines, refs, d + 1, d + 1)
    ensures off <= out.Length
    ensures out[..off] == Unlines(acc + KeyLines(Landing(lines, refs[d..], InNew(refs[d].sec))))
  {
    hide *;
    off := off0;
    ghost var sub, p := refs[d..], InNew(refs[d].sec);
    var e := d;
    LandedAll(lines, sub, p, 0);
    assert acc + Landed(lines, sub, p, 0) == acc;
    while e < dr.Length
      invariant d <= e <= dr.Length
      invariant ReadyNew(dr[..], lines, refs, d, e)
      invariant off <= out.Length && out[..off] == Unlines(acc + Landed(lines, sub, p, e - d))
    {
      off := WriteSectionKey(lines, refs, d, e, dr, out, off, acc, final);
      e := e + 1;
    }
    LandedAll(lines, sub, p, e - d);
    NewClosed(dr[..], lines, refs, d);
  }

  method WriteSectionKey(ghost lines: seq<string>, ghost refs: seq<Ref>, d: nat, e: nat, dr: array<DirtyRef>, out: array<char>,
                         off0: nat, ghost acc: seq<string>, ghost final: seq<string>)
    returns (off: nat)
    requires d <= e < dr.Length == |refs| && Opens(lines, refs, d) && ReadyNew(dr[..], lines, refs, d, e)
    requires off0 <= out.Length
    requires out[..off0] == Unlines(acc + Landed(lines, refs[d..], InNew(refs[d].sec), e - d))
    requires acc + KeyLines(Landing(lines, refs[d..], InNew(refs[d].sec))) <= final && |Unlines(final)| < out.Length
    modifies dr, out
    ensures ReadyNew(dr[..], lines, refs, d, e + 1)
    ensures off <= out.Length
    ensures out[..off] == Unlines(acc + Landed(lines, refs[d..], InNew(refs[d].sec), e + 1 - d))
  {
    hide *;
    off := off0;
    ghost var ds, sub, p := dr[..], refs[d..], InNew(refs[d].sec);
    BoundAt(ds, lines, refs, d, e, e);
    BoundAt(ds, lines, refs, d, e, d);
    JoinsCheck(ds, lines, refs, d, e);
    NewUpdate(ds, lines, refs, d, e);
    LandedStep(lines, sub, p, e - d);
    assert sub[e - d] == refs[e];
    if dr[e].ref.KeyRef? && !dr[e].done && EqNoCase(dr[e].ref.sec, dr[d].ref.sec) {
      LandedFits(lines, sub, p, e - d, acc, final);
      off := PutLine(out, off, acc + Landed(lines, sub, p, e - d), KeyLine(dr[e].ref), final);
      dr[e] := dr[e].(done := true);
      assert dr[..] == ds[e := ds[e].(done := true)];
    } else {
      assert Landed(lines, sub, p, e - d) + [] == Landed(lines, sub, p, e - d);
    }
  }

  lemma BoundAt(ds: seq<DirtyRef>, lines: seq<string>, refs: seq<Ref>, d: nat, e: nat, k: nat)
    requires d <= |refs| && k < |ds| && ReadyNew(ds, lines, refs, d, e)
    ensures |ds| == |refs| && ds[k].ref == refs[k]
  {
    assert BoundTo(ds[k], lines, |lines|, refs[k]);
  }

  method WriteNewSections(ghost lines: seq<string>, ghost refs: seq<Ref>, dr: array<DirtyRef>, out: array<char>, off0: nat)
    returns (off: nat)
    requires dr.Length == |refs| && ReadyNew(dr[..], lines, refs, 0, 0)
    requires AllOneLine(lines) && AllWritable(refs)
    requires off0 <= out.Length && out[..off0] == Unlines(Body(lines, |lines|, refs))
    requires |Unlines(SurgicalLines(lines, refs))| < out.Length
    modifies dr, out
    ensures off <= out.Length && out[..off] == Unlines(SurgicalLines(lines, refs))
  {
    BodyFrom(lines, |lines|, refs);
    AllFromOneLine(lines, refs, Body(lines, |lines|, refs));
    FinalIs(lines, refs);
    hide *;
    off := off0;
    ghost var acc, final := Body(lines, |lines|, refs), SurgicalLines(lines, refs);
    for d := 0 to dr.Length
      invariant ReadyNew(dr[..], lines, refs, d, d)
      invariant off <= out.Length && out[..off] == Unlines(acc) && AllOneLine(acc)
      invariant NewSections(lines, refs, d, acc) == final
    {
      OpensCheck(dr[..], lines, refs, d);
      if !dr[d].ref.KeyRef? || dr[d].done || dr[d].secInFile || dr[d].ref.sec == "" {
        NewSkipped(dr[..], lines, refs, d);
        SkipSection(lines, refs, d, acc);
        continue;
      }
      NewSectionRoom(lines, refs, d, acc);
      OpenedRoom(lines, refs, d, acc, final);
      off := WriteOpening(out, off, refs, d, dr[d].ref.sec, acc, final);
      off := WriteSectionKeys(lines, refs, d, dr, out, off, Opened(refs, d, acc), final);
      SectionOneLine(lines, refs, d, acc);
      acc := acc + Separator(acc) + NewSection(lines, refs, d);
    }
    LastSection(lines, refs, acc);
  }

  lemma FinalIs(lines: seq<string>, refs: seq<Ref>)
    ensures SurgicalLines(lines, refs) == NewSections(lines, refs, 0, Body(lines, |lines|, refs))
  {
  }

  lemma SkipSection(lines: seq<string>, refs: seq<Ref>, d: nat, acc: seq<string>)
    requires d < |refs| && !Opens(lines, refs, d)
    ensures NewSections(lines, refs, d, acc) == NewSections(lines, refs, d + 1, acc)
  {
  }

  lemma LastSection(lines: seq<string>, refs: seq<Ref>, acc: seq<string>)
    ensures NewSections(lines, refs, |refs|, acc) == acc
  {
  }

  lemma SectionOneLine(lines: seq<string>, refs: seq<Ref>, d: nat, acc: seq<string>)
    requires AllWritable(refs) && AllOneLine(lines) && d < |refs| && Opens(lines, refs, d) && AllOneLine(acc)
    ensures AllOneLine(acc + Separator(acc) + NewSection(lines, refs, d))
  {
    NewSectionFrom(lines, refs, d);
    AllFromOneLine(lines, refs, NewSection(lines, refs, d));
    OneLineAppend(acc, Separator(acc));
    OneLineAppend(acc + Separator(acc), NewSection(lines, refs, d));
  }

  // ---- the whole function

  // A fresh dirty_ref_t
  function FreshRef(r: Ref): DirtyRef {
    DirtyRef(r, -1, 0, 0, -1, false, false)
  }

  lemma FreshBound(ds: seq<DirtyRef>, lines: seq<string>, refs: seq<Ref>)
    requires |ds| == |refs| && forall d | 0 <= d < |refs| :: ds[d] == FreshRef(refs[d])
    ensures Bound(ds, lines, 0, refs)
  {
  }

  lemma SettledReady(ds0: seq<DirtyRef>, ds: seq<DirtyRef>, lines: seq<string>, refs: seq<Ref>)
    requires Bound(ds0, lines, |lines|, refs) && |ds| == |ds0|
    requires forall d | 0 <= d < |ds| :: ds[d] == ds0[d].(done := ds0[d].done || Idle(ds0[d]))
    ensures Ready(ds, lines, refs, -1, 0)
  {
    forall d | 0 <= d < |refs|
      ensures BoundTo(ds[d], lines, |lines|, refs[d])
      ensures LastHit(lines, |lines|, refs[d]) < 0 ==> (ds[d].done <==> !Live(refs[d]))
    {
      assert BoundTo(ds0[d], lines, |lines|, refs[d]);
    }
  }

  /** config_write_surgical: the edited file, built in a buffer whose size is
      fixed before the first byte is written. Every write stays inside it. */
  method ConfigWriteSurgical(text: string, refs: seq<Ref>) returns (written: string)
    requires AllFit(refs) && AllWritable(refs)
    ensures written == SurgicalText(text, refs)
  {
    var nlines := CountLines(text);
    var loff, llen, drop := new int[nlines], new int[nlines], new bool[nlines](_ => false);
    FillLines(text, loff, llen);
    ghost var lines := Lines(text);
    LinesAreLines(text);
    SaveFitsBuffer(text, refs);
    var dr := new DirtyRef[|refs|](i requires 0 <= i < |refs| => FreshRef(refs[i]));
    var out := new char[Capacity(|text|, nlines, |refs|)](_ => '\0');
    FreshBound(dr[..], lines, refs);
    written := EditLines(text, lines, refs, loff[..], llen[..], dr, drop, out);
  }

  method EditLines(text: string, ghost lines: seq<string>, ghost refs: seq<Ref>, loff: seq<int>, llen: seq<int>,
                   dr: array<DirtyRef>, drop: array<bool>, out: array<char>)
    returns (written: string)
    requires lines == Lines(text) && AllOneLine(lines) && AllWritable(refs)
    requires SplitInto(text, loff, llen, lines) && drop.Length == |lines| == |loff| == |llen|
    requires dr.Length == |refs| && Bound(dr[..], lines, 0, refs)
    requires |SurgicalText(text, refs)| < out.Length
    modifies dr, drop, out
    ensures written == SurgicalText(text, refs)
  {
    FinalText(text, lines, refs);
    hide *;
    BindAll(text, lines, refs, loff, llen, dr, drop);
    ghost var ds := dr[..];
    SettleUnset(dr);
    SettledReady(ds, dr[..], lines, refs);
    DropSeparators(text, lines, refs, loff, llen, drop);
    TopRoom(lines, refs, out.Length);
    var off := WritePending(lines, refs, -1, dr, out, 0, [], SurgicalLines(lines, refs));
    off := WriteLines(text, lines, refs, loff, llen, dr, drop, out, off);
    ReadyForNew(dr[..], lines, refs);
    off := WriteNewSections(lines, refs, dr, out, off);
    written := out[..off];
  }

  lemma FinalText(text: string, lines: seq<string>, refs: seq<Ref>)
    requires lines == Lines(text)
    ensures SurgicalText(text, refs) == Unlines(SurgicalLines(lines, refs))
  {
  }

  lemma TopRoom(lines: seq<string>, refs: seq<Ref>, cap: nat)
    requires |Unlines(SurgicalLines(lines, refs))| < cap
    ensures RoomFor(lines, refs, -1, [], SurgicalLines(lines, refs), cap)
    ensures [] + KeyLines(Landing(lines, refs, PlaceOf(-1))) == Body(lines, 0, refs)
    ensures Unlines([]) == ""
  {
    BodyBeforeEnd(lines, 0, refs);
  }
}
