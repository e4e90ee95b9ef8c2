/** write_pes_packets: packets built in place in the caller's buffer. */
module TsWrite {
  import opened Basics
  import opened TsPacket
  import opened TsPes

  // Nothing outside [from, to) has changed.
  twostate predicate Outside(buf: array<bv8>, from: nat, to: nat)
    reads buf
  {
    forall i | 0 <= i < buf.Length && !(from <= i < to) :: buf[i] == old(buf[i])
  }

  method SetMem(buf: array<bv8>, at: nat, n: nat, v: bv8)
    requires at + n <= buf.Length
    modifies buf
    ensures forall i | at <= i < at + n :: buf[i] == v
    ensures Outside(buf, at, at + n)
  {
    for k := 0 to n
      invariant forall i | at <= i < at + k :: buf[i] == v
      invariant forall i | 0 <= i < buf.Length && !(at <= i < at + n) :: buf[i] == old(buf[i])
    {
      buf[at + k] := v;
    }
  }

  method CopyMem(buf: array<bv8>, at: nat, src: Bytes)
    requires at + |src| <= buf.Length
    modifies buf
    ensures buf[at..at + |src|] == src
    ensures Outside(buf, at, at + |src|)
  {
    for k := 0 to |src|
      invariant forall i | 0 <= i < k :: buf[at + i] == src[i]
      invariant forall i | 0 <= i < buf.Length && !(at <= i < at + |src|) :: buf[i] == old(buf[i])
    {
      buf[at + k] := src[k];
    }
  }

  // The chunks of the copy loop: from the PES header, then from the payload
  method CopyData(buf: array<bv8>, at: nat, hdr: Bytes, payload: Bytes, off: nat, n: nat)
    requires at + n <= buf.Length && off + n <= |hdr| + |payload|
    modifies buf
    ensures buf[at..at + n] == (hdr + payload)[off..off + n]
    ensures Outside(buf, at, at + n)
  {
    ghost var data := hdr + payload;
    var done := 0;
    while done < n
      invariant done <= n
      invariant buf[at..at + done] == data[off..off + done]
      invariant forall i | 0 <= i < buf.Length && !(at <= i < at + n) :: buf[i] == old(buf[i])
    {
      ghost var before := buf[at..at + done];
      var from := off + done;
      var chunk := CopyChunk(buf, at + done, hdr, payload, from, n - done);
      assert buf[at..at + done] == before;
      Joined(data, off, done, chunk);
      Joined(buf[..], at, done, chunk);
      done := done + chunk;
    }
  }

  // One turn of the copy loop
  method CopyChunk(buf: array<bv8>, at: nat, hdr: Bytes, payload: Bytes, from: nat, most: nat) returns (chunk: nat)
    requires at + most <= buf.Length && from + most <= |hdr| + |payload| && most > 0
    modifies buf
    ensures 0 < chunk <= most && buf[at..at + chunk] == (hdr + payload)[from..from + chunk]
    ensures Outside(buf, at, at + chunk)
  {
    if from < |hdr| {
      chunk := Min(|hdr| - from, most);
      CopyMem(buf, at, hdr[from..from + chunk]);
      FromHeader(hdr, payload, from, chunk);
    } else {
      var plOff := from - |hdr|;
      chunk := Min(|payload| - plOff, most);
      CopyMem(buf, at, payload[plOff..plOff + chunk]);
      FromPayload(hdr, payload, plOff, chunk);
    }
  }

  lemma FromHeader(hdr: Bytes, payload: Bytes, i: nat, n: nat)
    requires i + n <= |hdr|
    ensures hdr[i..i + n] == (hdr + payload)[i..i + n]
  {
  }

  lemma FromPayload(hdr: Bytes, payload: Bytes, i: nat, n: nat)
    requires i + n <= |payload|
    ensures payload[i..i + n] == (hdr + payload)[|hdr| + i..|hdr| + i + n]
  {
  }

  lemma Joined(data: Bytes, off: nat, k: nat, chunk: nat)
    requires off + k + chunk <= |data|
    ensures data[off..off + k] + data[off + k..off + k + chunk] == data[off..off + k + chunk]
  {
  }

  method WritePcr(buf: array<bv8>, at: nat, pcr: bv64)
    requires at + 6 <= buf.Length
    modifies buf
    ensures buf[at..at + 6] == PcrBytes(pcr)
    ensures Outside(buf, at, at + 6)
  {
    buf[at] := ((pcr >> 25) & 0xff) as bv8;
    buf[at + 1] := ((pcr >> 17) & 0xff) as bv8;
    buf[at + 2] := ((pcr >> 9) & 0xff) as bv8;
    buf[at + 3] := ((pcr >> 1) & 0xff) as bv8;
    buf[at + 4] := (((pcr & 1) as bv8) << 7) | 0x7e;
    buf[at + 5] := 0;
  }

  // ---- one packet

  // An adaptation field byte by byte
  predicate FieldBytesAre(a: Bytes, x: Extra, take: nat)
    requires 0 < take <= Room(x)
  {
    |a| == 184 - take &&
    var stuff := Room(x) - take;
    if x != NOTHING then
      && a[0] == (|Fields(x)| + stuff) as bv8
      && a[1..1 + |Fields(x)|] == Fields(x)
      && forall i | 1 + |Fields(x)| <= i < |a| :: a[i] == 0xff
    else
      && (stuff == 1 ==> a[0] == 0)
      && (stuff > 1 ==> a[0] == (stuff - 1) as bv8 && a[1] == 0 && forall i | 2 <= i < |a| :: a[i] == 0xff)
  }

  lemma ThreeParts(a: Bytes, n: nat)
    requires n < |a|
    ensures a == [a[0]] + a[1..1 + n] + a[1 + n..]
  {
  }

  lemma FieldFromBytes(a: Bytes, x: Extra, take: nat)
    requires 0 < take <= Room(x) && FieldBytesAre(a, x, take)
    ensures a == Adaptation(x, take)
  {
    hide Fields;
    var stuff := Room(x) - take;
    if x != NOTHING {
      ThreeParts(a, |Fields(x)|);
    } else if stuff > 1 {
      assert a == [a[0], a[1]] + a[2..];
    } else if stuff == 1 {
      assert a == [a[0]];
    }
  }

  // The fields of the first packet: flags and clock
  method WriteFields(buf: array<bv8>, at: nat, x: Extra) returns (n: nat)
    requires at + 7 <= buf.Length && x != NOTHING
    modifies buf
    ensures n == |Fields(x)| && buf[at..at + n] == Fields(x)
    ensures Outside(buf, at, at + n)
  {
    hide PcrBytes;
    var flags: bv8 := 0;
    n := 1;
    if x.pcr.Some? {
      flags := flags | 0x10;
      n := n + 6;
    }
    if x.random {
      flags := flags | 0x40;
    }
    buf[at] := flags;
    if x.pcr.Some? {
      WritePcr(buf, at + 1, x.pcr.value);
      assert buf[at..at + 7] == [buf[at]] + buf[at + 1..at + 7];
    }
  }

  method WriteHead(buf: array<bv8>, at: nat, pid: bv16, first: bool, afc: bv8, cc: bv8)
    requires at + 4 <= buf.Length
    modifies buf
    ensures buf[at..at + 4] == Head(pid, first, afc, cc)
    ensures Outside(buf, at, at + 4)
  {
    buf[at] := 0x47;
    buf[at + 1] := (if first then 0x40 else 0) | ((pid >> 8) & 0x1f) as bv8;
    buf[at + 2] := (pid & 0xff) as bv8;
    buf[at + 3] := afc | (cc & 0x0f);
  }

  lemma LongFieldIs(a: Bytes, fields: Bytes, x: Extra, take: nat)
    requires x != NOTHING && 0 < take <= Room(x) && |a| == 184 - take && fields == Fields(x)
    requires |fields| < |a| && a[0] == (|Fields(x)| + Room(x) - take) as bv8
    requires forall i | 0 <= i < |fields| :: a[1 + i] == fields[i]
    requires forall i | 1 + |fields| <= i < |a| :: a[i] == 0xff
    ensures FieldBytesAre(a, x, take)
  {
    hide Fields;
    assert a[1..1 + |fields|] == fields;
  }

  // Fields, and filler behind them; the FF bytes are there already
  method WriteLongField(buf: array<bv8>, at: nat, x: Extra, remaining: nat) returns (take: nat)
    requires at + 184 <= buf.Length && remaining > 0 && x != NOTHING
    requires forall i | at <= i < at + 184 :: buf[i] == 0xff
    modifies buf
    ensures take == Min(remaining, Room(x)) && FieldBytesAre(buf[at..at + 184 - take], x, take)
    ensures Outside(buf, at, at + 184)
  {
    hide Fields, FieldBytesAre;
    var fields := WriteFields(buf, at + 1, x);
    buf[at] := fields as bv8;
    var room := 183 - fields;
    take := room;
    if remaining < room {
      var stuff := room - remaining;
      buf[at] := (fields + stuff) as bv8;
      take := remaining;
    }
    LongFieldIs(buf[at..at + 184 - take], buf[at + 1..at + 1 + fields], x, take);
  }

  // Only stuffing, if the packet is not full
  method WriteStuffing(buf: array<bv8>, at: nat, remaining: nat) returns (take: nat)
    requires at + 184 <= buf.Length && remaining > 0
    requires forall i | at <= i < at + 184 :: buf[i] == 0xff
    modifies buf
    ensures take == Min(remaining, 184) && FieldBytesAre(buf[at..at + 184 - take], NOTHING, take)
    ensures Outside(buf, at, at + 184)
  {
    hide Fields;
    take := 184;
    if remaining < 184 {
      var stuff := 184 - remaining;
      take := remaining;
      if stuff == 1 {
        buf[at] := 0;
      } else {
        buf[at] := (stuff - 1) as bv8;
        buf[at + 1] := 0;
      }
    }
  }

  // The adaptation field of a packet with `remaining` bytes to carry
  method WriteAdaptation(buf: array<bv8>, at: nat, x: Extra, remaining: nat) returns (take: nat)
    requires at + 184 <= buf.Length && remaining > 0
    requires forall i | at <= i < at + 184 :: buf[i] == 0xff
    modifies buf
    ensures take == Min(remaining, Room(x)) && buf[at..at + 184 - take] == Adaptation(x, take)
    ensures Outside(buf, at, at + 184)
  {
    hide Fields, FieldBytesAre, Adaptation;
    if x != NOTHING {
      take := WriteLongField(buf, at, x, remaining);
    } else {
      take := WriteStuffing(buf, at, remaining);
    }
    FieldFromBytes(buf[at..at + 184 - take], x, take);
  }

  lemma PacketFrom(p: Bytes, pid: bv16, first: bool, cc: bv8, x: Extra, chunk: Bytes)
    requires |p| == PACKET && 0 < |chunk| <= Room(x)
    requires p[..4] == Head(pid, first, if |chunk| == 184 then 0x10 else 0x30, cc)
    requires p[4..PACKET - |chunk|] == Adaptation(x, |chunk|) && p[PACKET - |chunk|..] == chunk
    ensures p == Packet(pid, first, cc, x, chunk)
  {
    hide Head, Adaptation;
    assert p == p[..4] + p[4..PACKET - |chunk|] + p[PACKET - |chunk|..];
  }

  lemma PacketSlices(w: Bytes, at: nat, take: nat)
    requires at + PACKET <= |w| && take <= 184
    ensures var p := w[at..at + PACKET];
            && p[..4] == w[at..at + 4] && p[4..PACKET - take] == w[at + 4..at + PACKET - take]
            && p[PACKET - take..] == w[at + PACKET - take..at + PACKET]
  {
    SubSlice(w, at, PACKET, 0, 4);
    SubSlice(w, at, PACKET, 4, PACKET - take);
    SubSlice(w, at, PACKET, PACKET - take, PACKET);
  }

  method WritePacket(buf: array<bv8>, at: nat, pid: bv16, first: bool, cc: bv8, x: Extra,
                     hdr: Bytes, payload: Bytes, off: nat) returns (take: nat)
    requires at + PACKET <= buf.Length && off < |hdr| + |payload|
    modifies buf
    ensures take == Min(|hdr| + |payload| - off, Room(x))
    ensures buf[at..at + PACKET] == Packet(pid, first, cc, x, (hdr + payload)[off..off + take])
    ensures Outside(buf, at, at + PACKET)
  {
    hide Head, Adaptation, Fields, Packet, FieldBytesAre;
    SetMem(buf, at, PACKET, 0xff);
    take := WriteAdaptation(buf, at + 4, x, |hdr| + |payload| - off);
    ghost var field := buf[at + 4..at + PACKET - take];
    WriteHead(buf, at, pid, first, if take == 184 then 0x10 else 0x30, cc);
    assert buf[at + 4..at + PACKET - take] == field;
    ghost var head := buf[at..at + 4];
    CopyData(buf, at + PACKET - take, hdr, payload, off, take);
    assert buf[at + 4..at + PACKET - take] == field;
    assert buf[at..at + 4] == head;
    ghost var p := buf[at..at + PACKET];
    ghost var chunk := (hdr + payload)[off..off + take];
    PacketSlices(buf[..], at, take);
    PacketFrom(p, pid, first, cc, x, chunk);
  }

  // ---- the loop

  lemma PacketsUnfold(pid: bv16, first: bool, cc: bv8, x: Extra, d: Bytes, n: nat, take: nat)
    requires d != [] && n > 0 && take == Min(|d|, Room(x))
    ensures Packets(pid, first, cc, x, d, n)
         == [Packet(pid, first, cc, x, d[..take])] + Packets(pid, false, NextCounter(cc), NOTHING, d[take..], n - 1)
  {
    hide Packet, Room, NextCounter;
  }

  lemma PacketsStep(pid: bv16, first: bool, cc: bv8, x: Extra, data: Bytes, off: nat, n: nat, take: nat)
    requires off < |data| && n > 0 && take == Min(|data| - off, Room(x))
    ensures Packets(pid, first, cc, x, data[off..], n)
         == [Packet(pid, first, cc, x, data[off..off + take])]
            + Packets(pid, false, NextCounter(cc), NOTHING, data[off + take..], n - 1)
  {
    PacketsUnfold(pid, first, cc, x, data[off..], n, take);
    hide Packets, Packet, Room, NextCounter;
    assert data[off..][..take] == data[off..off + take] && data[off..][take..] == data[off + take..];
  }

  lemma {:induction false} FlatConcat(a: seq<Bytes>, b: seq<Bytes>)
    ensures Flat(a + b) == Flat(a) + Flat(b)
  {
    if a == [] {
      assert a + b == b;
    } else {
      assert (a + b)[0] == a[0] && (a + b)[1..] == a[1..] + b;
      FlatConcat(a[1..], b);
      assert a[0] + (Flat(a[1..]) + Flat(b)) == a[0] + Flat(a[1..]) + Flat(b);
    }
  }

  lemma {:induction false} CounterNext(cc: bv8, k: nat)
    ensures Counter(cc, k + 1) == NextCounter(Counter(cc, k))
    decreases k
  {
    hide NextCounter;
    if k > 0 {
      CounterNext(NextCounter(cc), k - 1);
    }
  }

  /** write_pes_packets into a buffer of any size: as many whole packets as fit,
      and the counter moved on by their number. */
  method WritePesPackets(buf: array<bv8>, pid: bv16, cc0: bv8, hdr: Bytes, payload: Bytes, x0: Extra)
    returns (written: nat, cc: bv8)
    modifies buf
    ensures var ps := Packets(pid, true, cc0, x0, hdr + payload, buf.Length / PACKET);
            && written == PACKET * |ps| && written <= buf.Length
            && buf[..written] == Flat(ps) && cc == Counter(cc0, |ps|)
    ensures Outside(buf, 0, written)
  {
    hide Packets, Packet, Flat, Counter, NextCounter, Room;
    ghost var data := hdr + payload;
    ghost var n := buf.Length / PACKET;
    ghost var whole := Packets(pid, true, cc0, x0, data, n);
    ghost var done: seq<Bytes> := [];
    var off, first, x := 0, true, x0;
    written, cc := 0, cc0;
    Begin(data, cc0);
    while off < |hdr| + |payload| && written + PACKET <= buf.Length
      invariant off <= |data| && written == PACKET * |done| && |done| <= n
      invariant buf[..written] == Flat(done) && cc == Counter(cc0, |done|)
      invariant whole == done + Packets(pid, first, cc, x, data[off..], n - |done|)
      invariant Outside(buf, 0, written)
      decreases |data| - off
    {
      Fits(buf.Length, |done|);
      PacketsStep(pid, first, cc, x, data, off, n - |done|, Min(|data| - off, Room(x)));
      var take := WritePacket(buf, written, pid, first, cc, x, hdr, payload, off);
      ghost var p := buf[written..written + PACKET];
      ghost var rest := Packets(pid, false, NextCounter(cc), NOTHING, data[off + take..], n - |done| - 1);
      assert whole == done + [p] + rest;
      FlatSnoc(done, p);
      assert buf[..written + PACKET] == buf[..written] + p;
      CounterNext(cc0, |done|);
      done := done + [p];
      cc := NextCounter(cc);
      off := off + take;
      written := written + PACKET;
      first, x := false, NOTHING;
    }
    Done(pid, first, cc, x, data, off, n - |done|, buf.Length, |done|);
    assert done + [] == done;
  }

  lemma Begin(data: Bytes, cc: bv8)
    ensures data[0..] == data && Flat([]) == [] && Counter(cc, 0) == cc
  {
  }

  lemma FlatSnoc(done: seq<Bytes>, p: Bytes)
    ensures Flat(done + [p]) == Flat(done) + p
  {
    FlatConcat(done, [p]);
    assert Flat([p]) == p + Flat([]) == p;
  }

  lemma Fits(length: nat, k: nat)
    requires PACKET * k + PACKET <= length
    ensures k < length / PACKET
  {
  }

  lemma Done(pid: bv16, first: bool, cc: bv8, x: Extra, data: Bytes, off: nat, n: nat, length: nat, k: nat)
    requires off <= |data| && n == length / PACKET - k
    requires off == |data| || PACKET * k + PACKET > length
    ensures Packets(pid, first, cc, x, data[off..], n) == []
  {
    if off < |data| {
      assert n == 0;
    }
  }
}
