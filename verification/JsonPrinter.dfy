/** The printer over its growing buffer: what it writes, and exactly when it succeeds. */
module JsonPrinter {
  import opened Basics
  import opened JsonTree
  import opened JsonInk

  const INT_MAX: nat := 0x7fff_ffff
  const NUL: char := 0 as char

  // ---- the text of one list element, with what separates it from the next

  function Element(cur: Items, format: bool, depth: nat): string
    requires cur.Item?
  {
    Render(cur.head, format, depth) + (if cur.next.Item? then Comma(format) else "")
  }

  lemma ElementFirst(cur: Items, format: bool, depth: nat)
    requires cur.Item?
    ensures RenderItems(cur, format, depth) == Element(cur, format, depth) + RenderItems(cur.next, format, depth)
  {
    var (a, b, r) := (Render(cur.head, format, depth), Comma(format), RenderItems(cur.next, format, depth));
    if cur.next.Item? {
      assert a + (b + r) == (a + b) + r;
    } else {
      assert r == "";
      assert a + "" + r == a;
    }
  }

  function Ending(cur: Members, format: bool): string
    requires cur.Member?
  {
    (if cur.next.Member? then "," else "") + (if format then "\n" else "")
  }

  function Entry(cur: Members, format: bool, depth: nat): string
    requires cur.Member?
  {
    Indent(format, depth) + Quoted(cur.key) + Colon(format) + Render(cur.head, format, depth) + Ending(cur, format)
  }

  lemma EntryFirst(cur: Members, format: bool, depth: nat)
    requires cur.Member?
    ensures RenderMembers(cur, format, depth) == Entry(cur, format, depth) + RenderMembers(cur.next, format, depth)
  {
    var a := Indent(format, depth) + Quoted(cur.key) + Colon(format) + Render(cur.head, format, depth);
    var (b, d) := (if cur.next.Member? then "," else "", if format then "\n" else "");
    var r := RenderMembers(cur.next, format, depth);
    assert RenderMembers(cur, format, depth) == a + b + d + r;
    assert a + b + d == a + (b + d);
  }

  lemma ElementsFit(cur: Items, depth: nat)
    requires cur.Item? && ItemsPlain(cur)
    ensures ItemsFit(cur, depth) <==> Fits(cur.head, depth) && ItemsFit(cur.next, depth)
    ensures ItemsPlain(cur.next) && cur.next < cur
  {
  }

  lemma NoElements(cur: Items, format: bool, depth: nat)
    requires cur.NoItem?
    ensures RenderItems(cur, format, depth) == "" && ItemsFit(cur, depth)
  {
  }

  lemma ArrayShape(items: Items, format: bool, depth: nat)
    ensures Render(Array(items), format, depth) == "[" + RenderItems(items, format, depth + 1) + "]"
    ensures Fits(Array(items), depth) <==> depth < NESTING_LIMIT && ItemsFit(items, depth + 1)
  {
  }

  lemma EntriesFit(cur: Members, depth: nat)
    requires cur.Member? && MembersPlain(cur)
    ensures MembersFit(cur, depth) <==> Fits(cur.head, depth) && MembersFit(cur.next, depth)
    ensures MembersPlain(cur.next) && Bytes8(cur.key) && Plain(cur.head) && cur.next < cur
  {
  }

  lemma NoEntries(cur: Members, format: bool, depth: nat)
    requires cur.NoMember?
    ensures RenderMembers(cur, format, depth) == "" && MembersFit(cur, depth)
  {
  }

  lemma ObjectShape(ms: Members, format: bool, depth: nat)
    ensures Render(Object(ms), format, depth)
         == Opening(format) + RenderMembers(ms, format, depth + 1) + (Indent(format, depth) + "}")
    ensures Fits(Object(ms), depth) <==> depth < NESTING_LIMIT && MembersFit(ms, depth + 1)
  {
    Adds(Opening(format) + RenderMembers(ms, format, depth + 1), Indent(format, depth), "}");
  }

  // ---- strings

  lemma ShortEscape(ch: char)
    requires Lettered(ch)
    ensures EscapeChar(ch) == ['\\', Letter(ch)]
  {
  }

  // Written as a backslash and one letter
  predicate Lettered(ch: char) {
    ch == '\"' || ch == '\\' || ch as int == 8 || ch as int == 12 || ch == '\n' || ch == '\r' || ch == '\t'
  }

  function Letter(ch: char): char
    requires Lettered(ch)
  {
    if ch == '\\' then '\\'
    else if ch == '\"' then '\"'
    else if ch as int == 8 then 'b'
    else if ch as int == 12 then 'f'
    else if ch == '\n' then 'n'
    else if ch == '\r' then 'r'
    else 't'
  }

  class PrintBuffer {
    var buffer: array<char>
    var offset: nat
    var depth: nat
    const noalloc: bool
    const format: bool

    ghost predicate Valid()
      reads this
    {
      buffer.Length <= INT_MAX && offset <= buffer.Length && (buffer.Length > 0 ==> offset < buffer.Length)
    }

    // How far the buffer can reach
    ghost function Limit(): nat
      reads this`buffer
    {
      if noalloc then buffer.Length else INT_MAX
    }

    // The text stands at the start of the buffer, with its terminator.
    ghost predicate Holds(text: string)
      reads this`buffer, buffer
    {
      |text| < buffer.Length && buffer[..|text|] == text && buffer[|text|] == NUL
    }

    // Still the caller's buffer, or one of its own that grew out of it
    twostate predicate Kept()
      reads this
    {
      && Valid() && Limit() == old(Limit())
      && (buffer == old(buffer) || fresh(buffer))
      && (noalloc ==> buffer == old(buffer))
    }

    constructor (space: array<char>, noalloc: bool, format: bool)
      requires space.Length <= INT_MAX
      ensures Valid() && buffer == space && offset == 0 && depth == 0
      ensures this.noalloc == noalloc && this.format == format
    {
      buffer, offset, depth := space, 0, 0;
      this.noalloc, this.format := noalloc, format;
    }

    /** ensure: room for `needed` more bytes and one, growing the buffer if it may. */
    method Ensure(needed: nat) returns (ok: bool)
      requires Valid()
      modifies this`buffer
      ensures Kept()
      ensures ok <==> offset + needed + 1 <= Limit()
      ensures ok ==> offset + needed + 1 <= buffer.Length
      ensures buffer[..offset] == old(buffer[..offset])
    {
      if needed > INT_MAX {
        return false;
      }
      var total := needed + offset + 1;
      if total <= buffer.Length {
        return true;
      }
      if noalloc {
        return false;
      }
      var newsize := total * 2;
      if total > INT_MAX / 2 {
        if total > INT_MAX {
          return false;
        }
        newsize := INT_MAX;
      }
      var grown := new char[newsize];
      forall i | 0 <= i < buffer.Length {
        grown[i] := buffer[i];
      }
      buffer := grown;
      return true;
    }

    // Characters written from a place in the buffer on
    method Lay(at: nat, text: string)
      requires at + |text| <= buffer.Length
      modifies buffer
      ensures buffer[..at + |text|] == old(buffer[..at]) + text
      ensures forall i | at + |text| <= i < buffer.Length :: buffer[i] == old(buffer[i])
    {
      forall i | 0 <= i < |text| {
        buffer[at + i] := text[i];
      }
    }

    // Room reserved and a text written at the offset, with a terminator if room for one was asked
    method Put(text: string, needed: nat) returns (ok: bool)
      requires Valid() && |text| <= needed <= |text| + 1
      modifies this`buffer, buffer
      ensures Kept()
      ensures ok <==> offset + needed + 1 <= Limit()
      ensures ok ==> offset + needed + 1 <= buffer.Length
      ensures ok ==> buffer[..offset + |text|] == old(buffer[..offset]) + text
      ensures ok && needed > |text| ==> Holds(old(buffer[..offset]) + text)
    {
      ok := Ensure(needed);
      if ok {
        Lay(offset, text);
        if needed > |text| {
          buffer[offset + |text|] := NUL;
        }
      }
    }

    // The same, and the offset moved over the text
    method Append(text: string, needed: nat) returns (ok: bool)
      requires Valid() && |text| <= needed <= |text| + 1
      modifies this`buffer, this`offset, buffer
      ensures Kept()
      ensures ok <==> old(offset) + needed + 1 <= Limit()
      ensures offset == if ok then old(offset) + |text| else old(offset)
      ensures ok ==> buffer[..offset] == old(buffer[..offset]) + text
      ensures ok && needed > |text| ==> Holds(old(buffer[..offset]) + text)
    {
      ok := Put(text, needed);
      if ok {
        offset := offset + |text|;
      }
    }

    // The end of an array or object: the offset stays in front of it
    method Close(closing: string) returns (ok: bool)
      requires Valid() && depth > 0
      modifies this`buffer, this`depth, buffer
      ensures Kept()
      ensures ok <==> offset + |closing| + 2 <= Limit()
      ensures ok ==> depth == old(depth) - 1 && Holds(old(buffer[..offset]) + closing)
    {
      ok := Put(closing, |closing| + 1);
      if ok {
        depth := depth - 1;
      }
    }

    /** update_offset: on to the terminator. */
    method UpdateOffset(ghost text: string)
      requires Valid() && Holds(text) && offset <= |text| && NoZero(text[offset..])
      modifies this`offset
      ensures Valid() && offset == |text|
    {
      while buffer[offset] != NUL
        invariant offset <= |text| && Valid() && NoZero(text[offset..])
        decreases |text| - offset
      {
        offset := offset + 1;
      }
    }

    /** print_string_ptr: every byte it writes lies in the room it reserved. */
    method PrintString(s: string) returns (ok: bool)
      requires Valid() && Bytes8(s)
      modifies this`buffer, buffer
      ensures Kept()
      ensures ok <==> offset + |Quoted(s)| + 2 <= Limit()
      ensures ok ==> Holds(old(buffer[..offset]) + Quoted(s))
    {
      hide EscapeText, Quoted;
      ghost var before := buffer[..offset];
      var escapes := CountEscapes(s);
      QuotedLength(s);
      var length := |s| + escapes;
      ok := Ensure(length + 3);
      if ok {
        if escapes == 0 {
          Lay(offset, "\"" + s + "\"" + [NUL]);
          Copied(buffer[..offset + |s| + 3], before, s);
          Ends(before + Quoted(s));
        } else {
          CopyEscaped(s, length);
        }
      }
    }

    // One character of a string, escaped; sprintf adds a terminator of its own
    method PutEscape(o: nat, ch: char) returns (next: nat)
      requires 0 < ch as int < 256 && o + |EscapeChar(ch)| < buffer.Length
      modifies buffer
      ensures next == o + |EscapeChar(ch)| && buffer[..next] == old(buffer[..o]) + EscapeChar(ch)
    {
      EscapeLength(ch);
      if ch as int > 31 && ch != '\"' && ch != '\\' {
        Lay(o, [ch]);
        next := o + 1;
      } else if Lettered(ch) {
        ShortEscape(ch);
        Lay(o, ['\\', Letter(ch)]);
        next := o + 2;
      } else {
        Lay(o, ControlEscape(ch as int));
        buffer[o + 6] := NUL;
        next := o + 6;
      }
    }

    lemma Ends(text: string)
      requires |text| < buffer.Length && buffer[..|text| + 1] == text + [NUL]
      ensures Holds(text)
    {
      assert buffer[..|text|] == buffer[..|text| + 1][..|text|];
      assert buffer[|text|] == buffer[..|text| + 1][|text|];
    }

    method CopyEscaped(s: string, length: nat)
      requires Valid() && Bytes8(s) && length == |EscapeText(s)| && offset + length + 3 <= buffer.Length
      modifies buffer
      ensures Holds(old(buffer[..offset]) + Quoted(s))
    {
      hide EscapeText, EscapeChar, Begun, Quoted;
      ghost var before := buffer[..offset];
      Lay(offset, "\"");
      var o := offset + 1;
      BegunAll(s);
      for i := 0 to |s|
        invariant o == offset + 1 + |Begun(s, i)| && |Begun(s, i)| <= length
        invariant buffer[..o] == before + "\"" + Begun(s, i)
      {
        BegunNext(s, i);
        Within(s, i + 1);
        o := PutEscape(o, s[i]);
        Adds(before + "\"", Begun(s, i), EscapeChar(s[i]));
      }
      Lay(o, "\"" + [NUL]);
      Closing(buffer[..o + 2], before, s);
      Ends(before + Quoted(s));
    }

    // ---- values

    method PrintNumber(v: int) returns (ok: bool)
      requires Valid()
      modifies this`buffer, this`offset, buffer
      ensures Kept()
      ensures ok <==> old(offset) + |Decimal(v)| + 2 <= Limit()
      ensures ok ==> offset == old(offset) + |Decimal(v)| && Holds(old(buffer[..offset]) + Decimal(v))
    {
      var text := Decimal(v);
      ok := Append(text, |text| + 1);
    }

    /** print_value: it succeeds exactly when the tree is not nested too deep and two
        more bytes than its text fit; then the text stands behind what was written before. */
    method PrintValue(j: Json) returns (ok: bool)
      requires Valid() && Plain(j)
      modifies this, buffer
      ensures Kept()
      ensures ok <==> Fits(j, old(depth)) && old(offset) + |Render(j, format, old(depth))| + 2 <= Limit()
      ensures ok ==> depth == old(depth)
      ensures ok ==> var text := old(buffer[..offset]) + Render(j, format, old(depth));
                     old(offset) <= offset <= |text| && Holds(text)
      decreases j, 0
    {
      match j
      case Null => ok := Put("null", 5);
      case False => ok := Put("false", 6);
      case True => ok := Put("true", 5);
      case Number(v) => ok := PrintNumber(v);
      case Text(s) => ok := PrintString(s);
      case Array(items) => ok := PrintArray(items);
      case Object(members) => ok := PrintObject(members);
    }

    // A value and the step of the offset over it
    method PrintWhole(j: Json) returns (ok: bool)
      requires Valid() && Plain(j)
      modifies this, buffer
      ensures Kept()
      ensures ok <==> Fits(j, old(depth)) && old(offset) + |Render(j, format, old(depth))| + 2 <= Limit()
      ensures ok ==> depth == old(depth)
      ensures ok ==> offset == old(offset) + |Render(j, format, depth)|
                     && buffer[..offset] == old(buffer[..offset]) + Render(j, format, depth)
      decreases j, 1
    {
      hide Render, Fits, Plain;
      ghost var before := buffer[..offset];
      ghost var text := Render(j, format, depth);
      RenderNoZero(j, format, depth);
      ok := PrintValue(j);
      if ok {
        DropsNoZero(before, text, offset);
        UpdateOffset(before + text);
      }
    }

    method PrintElement(cur: Items) returns (ok: bool)
      requires Valid() && cur.Item? && ItemsPlain(cur)
      modifies this, buffer
      ensures Kept()
      ensures ok <==> Fits(cur.head, old(depth)) && old(offset) + |Element(cur, format, old(depth))| + 2 <= Limit()
      ensures ok ==> depth == old(depth)
      ensures ok ==> offset == old(offset) + |Element(cur, format, depth)|
                     && buffer[..offset] == old(buffer[..offset]) + Element(cur, format, depth)
      decreases cur, 0
    {
      hide Render, Fits, Plain;
      ok := PrintWhole(cur.head);
      if ok && cur.next.Item? {
        var comma := Comma(format);
        ok := Append(comma, |comma| + 1);
      }
    }

    // The element loop
    method PrintElements(items: Items) returns (ok: bool)
      requires Valid() && ItemsPlain(items)
      modifies this, buffer
      ensures Kept()
      ensures ok <==> ItemsFit(items, old(depth))
                      && (items.NoItem? || old(offset) + |RenderItems(items, format, old(depth))| + 2 <= Limit())
      ensures ok ==> depth == old(depth)
      ensures ok ==> offset == old(offset) + |RenderItems(items, format, depth)|
                     && buffer[..offset] == old(buffer[..offset]) + RenderItems(items, format, depth)
      decreases items, 1
    {
      hide Render, RenderItems, Fits, ItemsFit, ItemsPlain, Element;
      var cur := items;
      ghost var (before, done) := (buffer[..offset], "");
      while cur.Item?
        invariant Kept() && depth == old(depth) && ItemsPlain(cur)
        invariant cur == items || (cur < items && items.Item?)
        invariant ItemsFit(items, depth) <==> ItemsFit(cur, depth)
        invariant done + RenderItems(cur, format, depth) == RenderItems(items, format, depth)
        invariant offset == |before| + |done| && buffer[..offset] == before + done
        invariant cur == items || offset + 2 <= Limit()
        decreases cur
      {
        ghost var (e, r) := (Element(cur, format, depth), RenderItems(cur.next, format, depth));
        ElementFirst(cur, format, depth);
        ElementsFit(cur, depth);
        ok := PrintElement(cur);
        if !ok {
          return;
        }
        Adds(before, done, e);
        Adds(done, e, r);
        done := done + e;
        cur := cur.next;
      }
      NoElements(cur, format, depth);
      ok := true;
    }

    /** print_array */
    method PrintArray(items: Items) returns (ok: bool)
      requires Valid() && ItemsPlain(items)
      modifies this, buffer
      ensures Kept()
      ensures ok <==> Fits(Array(items), old(depth))
                      && old(offset) + |Render(Array(items), format, old(depth))| + 2 <= Limit()
      ensures ok ==> depth == old(depth)
      ensures ok ==> var text := old(buffer[..offset]) + Render(Array(items), format, old(depth));
                     old(offset) <= offset <= |text| && Holds(text)
      decreases items, 2
    {
      hide Render, RenderItems, Fits, ItemsFit, ItemsPlain, Holds, Limit;
      ArrayShape(items, format, depth);
      ghost var before, inner := buffer[..offset], RenderItems(items, format, depth + 1);
      if depth >= NESTING_LIMIT {
        return false;
      }
      ok := Append("[", 1);
      if !ok {
        return;
      }
      depth := depth + 1;
      ok := PrintElements(items);
      if !ok {
        return;
      }
      Three(before, "[", inner, "]");
      ok := Close("]");
    }

    // A string and the step of the offset over it
    method PrintText(s: string) returns (ok: bool)
      requires Valid() && Bytes8(s)
      modifies this`buffer, this`offset, buffer
      ensures Kept()
      ensures ok <==> old(offset) + |Quoted(s)| + 2 <= Limit()
      ensures ok ==> offset == old(offset) + |Quoted(s)| && buffer[..offset] == old(buffer[..offset]) + Quoted(s)
    {
      hide Quoted;
      ghost var before := buffer[..offset];
      QuotedNoZero(s);
      ok := PrintString(s);
      if ok {
        DropsNoZero(before, Quoted(s), offset);
        UpdateOffset(before + Quoted(s));
      }
    }

    // The indentation, the key and the colon of a member
    method PrintKey(key: string) returns (ok: bool)
      requires Valid() && Bytes8(key)
      modifies this`buffer, this`offset, buffer
      ensures Kept()
      ensures var piece := Indent(format, depth) + Quoted(key) + Colon(format);
              && (ok <==> old(offset) + |piece| + 1 <= Limit())
              && (ok ==> offset == old(offset) + |piece| && buffer[..offset] == old(buffer[..offset]) + piece)
    {
      hide Quoted, Tabs;
      ColonLength(format);
      ghost var before := buffer[..offset];
      if format {
        ok := Append(Tabs(depth), depth);
        if !ok {
          return;
        }
      }
      hide Indent, Colon;
      ok := PrintText(key);
      if !ok {
        return;
      }
      ok := Append(Colon(format), |Colon(format)|);
      Three(before, Indent(format, depth), Quoted(key), Colon(format));
    }

    // One member: its key, value and what ends it
    method PrintEntry(cur: Members) returns (ok: bool)
      requires Valid() && cur.Member? && MembersPlain(cur)
      modifies this, buffer
      ensures Kept()
      ensures ok <==> Fits(cur.head, old(depth)) && old(offset) + |Entry(cur, format, old(depth))| + 2 <= Limit()
      ensures ok ==> depth == old(depth)
      ensures ok ==> offset == old(offset) + |Entry(cur, format, depth)|
                     && buffer[..offset] == old(buffer[..offset]) + Entry(cur, format, depth)
      decreases cur, 0
    {
      hide Render, Fits, Plain, MembersPlain, Quoted, Ending, Indent, Colon;
      EntriesFit(cur, depth);
      ghost var before := buffer[..offset];
      ok := PrintKey(cur.key);
      if !ok {
        return;
      }
      ok := PrintWhole(cur.head);
      if !ok {
        return;
      }
      var ending := Ending(cur, format);
      ok := Append(ending, |ending| + 1);
      Three(before, Indent(format, depth) + Quoted(cur.key) + Colon(format), Render(cur.head, format, depth), ending);
    }

    // The member loop
    method PrintEntries(members: Members) returns (ok: bool)
      requires Valid() && MembersPlain(members)
      modifies this, buffer
      ensures Kept()
      ensures ok <==> MembersFit(members, old(depth))
                      && (members.NoMember? || old(offset) + |RenderMembers(members, format, old(depth))| + 2 <= Limit())
      ensures ok ==> depth == old(depth)
      ensures ok ==> offset == old(offset) + |RenderMembers(members, format, depth)|
                     && buffer[..offset] == old(buffer[..offset]) + RenderMembers(members, format, depth)
      decreases members, 1
    {
      hide Render, RenderMembers, Fits, MembersFit, MembersPlain, Entry;
      var cur := members;
      ghost var (before, done) := (buffer[..offset], "");
      while cur.Member?
        invariant Kept() && depth == old(depth) && MembersPlain(cur)
        invariant cur == members || (cur < members && members.Member?)
        invariant MembersFit(members, depth) <==> MembersFit(cur, depth)
        invariant done + RenderMembers(cur, format, depth) == RenderMembers(members, format, depth)
        invariant offset == |before| + |done| && buffer[..offset] == before + done
        invariant cur == members || offset + 2 <= Limit()
        decreases cur
      {
        ghost var (e, r) := (Entry(cur, format, depth), RenderMembers(cur.next, format, depth));
        EntryFirst(cur, format, depth);
        EntriesFit(cur, depth);
        ok := PrintEntry(cur);
        if !ok {
          return;
        }
        Adds(before, done, e);
        Adds(done, e, r);
        done := done + e;
        cur := cur.next;
      }
      NoEntries(cur, format, depth);
      ok := true;
    }

    /** print_object */
    method PrintObject(members: Members) returns (ok: bool)
      requires Valid() && MembersPlain(members)
      modifies this, buffer
      ensures Kept()
      ensures ok <==> Fits(Object(members), old(depth))
                      && old(offset) + |Render(Object(members), format, old(depth))| + 2 <= Limit()
      ensures ok ==> depth == old(depth)
      ensures ok ==> var text := old(buffer[..offset]) + Render(Object(members), format, old(depth));
                     old(offset) <= offset <= |text| && Holds(text)
      decreases members, 2
    {
      hide Render, RenderMembers, Fits, MembersFit, MembersPlain, Opening, Indent, Holds, Limit;
      ObjectShape(members, format, depth);
      ghost var before, inner := buffer[..offset], RenderMembers(members, format, depth + 1);
      if depth >= NESTING_LIMIT {
        return false;
      }
      var opening := Opening(format);
      ok := Append(opening, |opening| + 1);
      if !ok {
        return;
      }
      depth := depth + 1;
      ok := PrintEntries(members);
      if !ok {
        return;
      }
      var closing := Indent(format, depth - 1) + "}";
      Three(before, opening, inner, closing);
      ok := Close(closing);
    }
  }

  lemma Three(a: string, b: string, c: string, d: string)
    ensures a + b + c + d == a + (b + c + d)
  {
  }

  lemma ColonLength(format: bool)
    ensures 1 <= |Colon(format)| <= 2
  {
  }

  lemma DropsNoZero(before: string, text: string, at: nat)
    requires NoZero(text) && |before| <= at <= |before| + |text|
    ensures NoZero((before + text)[at..])
  {
  }

  lemma Adds(a: string, b: string, c: string)
    ensures a + b + c == a + (b + c)
  {
  }

  lemma Closing(w: string, before: string, s: string)
    requires w == before + "\"" + EscapeText(s) + ("\"" + [NUL])
    ensures w == before + Quoted(s) + [NUL] && |w| == |before| + |EscapeText(s)| + 3
  {
    hide EscapeText;
  }

  lemma QuotedLength(s: string)
    ensures |Quoted(s)| == |EscapeText(s)| + 2
  {
  }

  lemma Copied(w: string, before: string, s: string)
    requires EscapeText(s) == s && w == before + ("\"" + s + "\"" + [NUL])
    ensures w == before + Quoted(s) + [NUL]
  {
    hide EscapeText;
  }

  // How many characters more than s its escaped form has
  method CountEscapes(s: string) returns (escapes: nat)
    requires Bytes8(s)
    ensures |s| + escapes == |EscapeText(s)|
    ensures escapes == 0 ==> EscapeText(s) == s
  {
    escapes := 0;
    BegunAll(s);
    for i := 0 to |s|
      invariant |Begun(s, i)| == i + escapes
      invariant escapes == 0 ==> Begun(s, i) == s[..i]
    {
      BegunNext(s, i);
      EscapeLength(s[i]);
      if Lettered(s[i]) {
        escapes := escapes + 1;
      } else if s[i] as int < 32 {
        escapes := escapes + 5;
      }
    }
  }

  lemma {:induction false} Within(s: string, n: nat)
    requires n <= |s|
    ensures |Begun(s, n)| <= |EscapeText(s)|
    decreases |s| - n
  {
    BegunAll(s);
    if n < |s| {
      BegunNext(s, n);
      Within(s, n + 1);
    }
  }

  /** cJSON_PrintPreallocated: a caller's buffer of `space.Length` bytes is enough
      exactly when it has two bytes more than the text; nothing is written elsewhere. */
  method PrintPreallocated(j: Json, space: array<char>, format: bool) returns (ok: bool)
    requires Plain(j) && space.Length <= INT_MAX
    modifies space
    ensures ok <==> Fits(j, 0) && |Render(j, format, 0)| + 2 <= space.Length
    ensures ok ==> var text := Render(j, format, 0); space[..|text|] == text && space[|text|] == NUL
  {
    hide Render, Fits, Plain;
    var p := new PrintBuffer(space, true, format);
    ok := p.PrintValue(j);
    if ok {
      assert p.buffer[..0] == "";
    }
  }

  /** print: the text of a tree, or nothing when it is nested too deep or as long as INT_MAX allows. */
  method PrintTree(j: Json, format: bool) returns (r: Option<string>)
    requires Plain(j)
    ensures r == if |Render(j, format, 0)| + 2 <= INT_MAX then Print(j, format, 0) else None
  {
    hide Render, Fits, Plain;
    var space := new char[256];
    var p := new PrintBuffer(space, false, format);
    RenderNoZero(j, format, 0);
    var ok := p.PrintWhole(j);
    assert "" + Render(j, format, 0) == Render(j, format, 0);
    r := if ok then Some(p.buffer[..p.offset]) else None;
  }
}
