/** The multiplexer as a state machine: its counters and clock guard over calls,
    and what whole runs of it send.

    `Next` is the state after a call and `Sent` the packets of the call. The packets
    of one PID number on from the counter of that PID (`Numbers`). */
module TsMux {
  import opened Basics
  import opened TsPacket
  import opened TsPes
  import opened TsTables

  const PID_VIDEO: bv16 := 0x0100
  const PID_AUDIO: bv16 := 0x0101

  // A 64-bit time in 90 kHz ticks
  type Ticks64 = t: nat | t < 0x1_0000_0000_0000_0000

  function Word(t: Ticks64): bv64 {
    t as bv64
  }

  datatype Mux = Mux(ccPat: bv8, ccPmt: bv8, ccVideo: bv8, ccAudio: bv8,
                     patCounter: nat, lastPcr: Ticks64, video: bv8, audio: bv8, channels: bv8)

  // rss_ts_init
  function Start(video: bv8, audio: bv8, channels: bv8): Mux {
    Mux(0, 0, 0, 0, 0, 0, video, audio, if channels == 0 then 1 else channels)
  }

  // ---- PES headers, section 2.4.3.6 of ISO/IEC 13818-1

  function VideoHeader(pts: bv64, dts: bv64): (h: Bytes)
    ensures |h| == if dts == pts then 14 else 19
  {
    [0x00, 0x00, 0x01, 0xe0, 0x00, 0x00, 0x84] +
    if dts != pts then [0xc0, 0x0a] + PtsBytes(0x03, pts) + PtsBytes(0x01, dts)
    else [0x80, 0x05] + PtsBytes(0x02, pts)
  }

  // PES_packet_length, or zero when it does not fit
  function LengthBytes16(n: nat): (b: Bytes)
    ensures |b| == 2
  {
    if n <= 0xffff then [(n / 256) as bv8, (n % 256) as bv8] else [0x00, 0x00]
  }

  function AudioHeader(audio: bv8, len: nat, pts: bv64): (h: Bytes)
    ensures |h| == 14
  {
    [0x00, 0x00, 0x01, if audio == AAC then 0xc0 else 0xbd] + LengthBytes16(len + 8)
    + [0x84, 0x80, 0x05] + PtsBytes(0x02, pts)
  }

  datatype Pes = Pes(stream: bv8, length: nat, pts: bv64, dts: bv64, payload: Bytes)

  // The prefix and the marker bits of a time stamp
  predicate Stamped(b: Bytes, prefix: bv8)
    requires |b| == 5
  {
    b[0] >> 4 == prefix && b[0] & 1 == 1 && b[2] & 1 == 1 && b[4] & 1 == 1
  }

  lemma StampedBack(prefix: bv8, pts: bv64)
    requires prefix < 0x10
    ensures Stamped(PtsBytes(prefix, pts), prefix)
  {
  }

  // A PES packet taken apart; without a DTS the PTS stands for it
  function PesOf(b: Bytes): Option<Pes> {
    if |b| < 14 || b[..3] != [0x00, 0x00, 0x01] || b[6] >> 6 != 0x02 || b[7] & 0x80 == 0 then None
    else
      var both := b[7] & 0x40 != 0;
      var start := 9 + b[8] as nat;
      if start > |b| || start < (if both then 19 else 14) then None
      else if !Stamped(b[9..14], if both then 0x03 else 0x02) || (both && !Stamped(b[14..19], 0x01)) then None
      else
        var pts := PtsOf(b[9..14]);
        Some(Pes(b[3], b[4] as nat * 256 + b[5] as nat, pts,
                 if both then PtsOf(b[14..19]) else pts, b[start..]))
  }

  function Low33(t: bv64): bv64 {
    t & 0x1_ffff_ffff
  }

  lemma VideoPlainBack(pts: bv64, data: Bytes)
    ensures PesOf(VideoHeader(pts, pts) + data) == Some(Pes(0xe0, 0, Low33(pts), Low33(pts), data))
  {
    var b := VideoHeader(pts, pts) + data;
    PtsBack(0x02, pts);
    StampedBack(0x02, pts);
    hide PtsBytes, PtsOf, Stamped;
    assert b[..3] == [0x00, 0x00, 0x01];
    assert b[9..14] == PtsBytes(0x02, pts);
    assert b[14..] == data;
  }

  lemma VideoBothBack(pts: bv64, dts: bv64, data: Bytes)
    requires dts != pts
    ensures PesOf(VideoHeader(pts, dts) + data) == Some(Pes(0xe0, 0, Low33(pts), Low33(dts), data))
  {
    var b := VideoHeader(pts, dts) + data;
    PtsBack(0x03, pts);
    PtsBack(0x01, dts);
    StampedBack(0x03, pts);
    StampedBack(0x01, dts);
    hide PtsBytes, PtsOf, Stamped;
    assert b[..3] == [0x00, 0x00, 0x01];
    assert b[9..14] == PtsBytes(0x03, pts);
    assert b[14..19] == PtsBytes(0x01, dts);
    assert b[19..] == data;
  }

  /** A video PES packet parsed: stream, both time stamps modulo 2^33, and data. */
  lemma VideoBack(pts: bv64, dts: bv64, data: Bytes)
    ensures PesOf(VideoHeader(pts, dts) + data) == Some(Pes(0xe0, 0, Low33(pts), Low33(dts), data))
  {
    if dts == pts {
      VideoPlainBack(pts, data);
    } else {
      VideoBothBack(pts, dts, data);
    }
  }

  lemma PtsLow(prefix: bv8, pts: bv64)
    requires prefix < 0x10
    ensures PtsOf(PtsBytes(prefix, pts)) == Low33(pts)
  {
    PtsBack(prefix, pts);
    hide PtsBytes, PtsOf;
  }

  lemma LengthBack(n: nat)
    ensures var b := LengthBytes16(n);
            b[0] as nat * 256 + b[1] as nat == if n <= 0xffff then n else 0
  {
    if n <= 0xffff {
      ByteBack(n / 256);
      ByteBack(n % 256);
    }
  }

  // A PES packet with one time stamp, in its parts
  lemma PlainPes(stream: bv8, len: Bytes, stamp: Bytes, data: Bytes)
    requires |len| == 2 && |stamp| == 5 && Stamped(stamp, 0x02)
    ensures PesOf([0x00, 0x00, 0x01, stream] + len + [0x84, 0x80, 0x05] + stamp + data)
         == Some(Pes(stream, len[0] as nat * 256 + len[1] as nat, PtsOf(stamp), PtsOf(stamp), data))
  {
    hide PtsOf, Stamped;
    var b := [0x00, 0x00, 0x01, stream] + len + [0x84, 0x80, 0x05] + stamp + data;
    assert b[..3] == [0x00, 0x00, 0x01];
    assert b[9..14] == stamp;
    assert b[14..] == data;
  }

  /** An audio PES packet parsed: its length counts what follows it, or is zero
      when that does not fit in sixteen bits. */
  lemma AudioBack(audio: bv8, pts: bv64, data: Bytes)
    ensures PesOf(AudioHeader(audio, |data|, pts) + data)
         == Some(Pes(if audio == AAC then 0xc0 else 0xbd, if |data| + 8 <= 0xffff then |data| + 8 else 0,
                     Low33(pts), Low33(pts), data))
  {
    hide PtsBytes, PtsOf, LengthBytes16, Low33, PesOf, Stamped;
    PtsLow(0x02, pts);
    StampedBack(0x02, pts);
    LengthBack(|data| + 8);
    PlainPes(if audio == AAC then 0xc0 else 0xbd, LengthBytes16(|data| + 8), PtsBytes(0x02, pts), data);
  }

  // ---- one call; n is how many packets the buffer holds

  datatype Call =
    | Tables(n: nat)
    | Video(n: nat, data: Bytes, pts: Ticks64, dts: Ticks64, idr: bool)
    | Audio(n: nat, data: Bytes, pts: Ticks64)

  // The clock reference of a video write, with the guard against repeats
  function NextPcr(m: Mux, dts: Ticks64): Ticks64 {
    var pcr := if dts > 3000 then dts - 3000 else 0;
    if pcr <= m.lastPcr && m.patCounter > 0 then (m.lastPcr + 1) % 0x1_0000_0000_0000_0000 else pcr
  }

  function VideoExtra(m: Mux, dts: Ticks64, idr: bool): Extra {
    Extra(Some(Word(NextPcr(m, dts))), idr)
  }

  function VideoPackets(m: Mux, n: nat, data: Bytes, pts: Ticks64, dts: Ticks64, idr: bool): (ps: seq<Bytes>)
    ensures forall i | 0 <= i < |ps| :: |ps[i]| == PACKET
  {
    Packets(PID_VIDEO, true, m.ccVideo, VideoExtra(m, dts, idr), VideoHeader(Word(pts), Word(dts)) + data, n)
  }

  function AudioPackets(m: Mux, n: nat, data: Bytes, pts: Ticks64): (ps: seq<Bytes>)
    ensures forall i | 0 <= i < |ps| :: |ps[i]| == PACKET
  {
    Packets(PID_AUDIO, true, m.ccAudio, NOTHING, AudioHeader(m.audio, |data|, Word(pts)) + data, n)
  }

  function PatPacket(cc: bv8): (p: Bytes)
    ensures |p| == PACKET
  {
    TablePacket(PID_PAT, cc, PatSection())
  }

  function PmtPacket(m: Mux): (p: Bytes)
    ensures |p| == PACKET
  {
    TablePacket(PID_PMT, m.ccPmt, PmtSection(m.video, m.audio, m.channels))
  }

  function TablePackets(m: Mux): (ps: seq<Bytes>)
    ensures forall i | 0 <= i < |ps| :: |ps[i]| == PACKET
  {
    Both(PatPacket(m.ccPat), PmtPacket(m))
  }

  function Both(a: Bytes, b: Bytes): (ps: seq<Bytes>)
    requires |a| == |b| == PACKET
    ensures forall i | 0 <= i < |ps| :: |ps[i]| == PACKET
  {
    [a, b]
  }

  function Sent(m: Mux, c: Call): (ps: seq<Bytes>)
    ensures forall i | 0 <= i < |ps| :: |ps[i]| == PACKET
  {
    match c
    case Tables(n) => if n < 2 then [] else TablePackets(m)
    case Video(n, data, pts, dts, idr) => if data == [] then [] else VideoPackets(m, n, data, pts, dts, idr)
    case Audio(n, data, pts) => if data == [] || m.audio == NO_AUDIO then [] else AudioPackets(m, n, data, pts)
  }

  function Next(m: Mux, c: Call): Mux {
    match c
    case Tables(n) =>
      if n < 2 then m
      else m.(ccPat := NextCounter(m.ccPat), ccPmt := NextCounter(m.ccPmt), patCounter := 0)
    case Video(n, data, pts, dts, idr) =>
      if data == [] then m
      else m.(ccVideo := Counter(m.ccVideo, |Sent(m, c)|), lastPcr := NextPcr(m, dts),
              patCounter := (m.patCounter + 1) % 0x1_0000_0000)
    case Audio(n, data, pts) =>
      if data == [] || m.audio == NO_AUDIO then m else m.(ccAudio := Counter(m.ccAudio, |Sent(m, c)|))
  }

  // ---- runs

  function After(m: Mux, calls: seq<Call>): Mux
    decreases |calls|
  {
    if calls == [] then m else After(Next(m, calls[0]), calls[1..])
  }

  function Output(m: Mux, calls: seq<Call>): (ps: seq<Bytes>)
    ensures forall i | 0 <= i < |ps| :: |ps[i]| == PACKET
    decreases |calls|
  {
    if calls == [] then [] else Sent(m, calls[0]) + Output(Next(m, calls[0]), calls[1..])
  }

  // ---- continuity counters

  // How many of the packets carry this PID
  function Count(ps: seq<Bytes>, pid: bv16): nat
    requires forall i | 0 <= i < |ps| :: |ps[i]| == PACKET
  {
    if ps == [] then 0 else Count(ps[..|ps| - 1], pid) + if PidOf(ps[|ps| - 1]) == pid then 1 else 0
  }

  // If packet i has this PID, it carries the number of those before it, from k on.
  predicate Numbered(ps: seq<Bytes>, i: nat, pid: bv16, k: nat)
    requires i < |ps| && forall i | 0 <= i < |ps| :: |ps[i]| == PACKET
  {
    PidOf(ps[i]) == pid ==> CounterOf(ps[i]) == Counter(0, k + Count(ps[..i], pid))
  }

  predicate InOrder(ps: seq<Bytes>, pid: bv16, k: nat)
    requires forall i | 0 <= i < |ps| :: |ps[i]| == PACKET
  {
    forall i | 0 <= i < |ps| :: Numbered(ps, i, pid, k)
  }

  predicate Full(ps: seq<Bytes>) {
    forall i | 0 <= i < |ps| :: |ps[i]| == PACKET
  }

  lemma {:induction false} CounterAdd(cc: bv8, a: nat, b: nat)
    ensures Counter(Counter(cc, a), b) == Counter(cc, a + b)
    decreases a
  {
    hide NextCounter;
    if a > 0 {
      CounterAdd(NextCounter(cc), a - 1, b);
    }
  }

  lemma {:induction false} CounterLow(cc: bv8, k: nat)
    requires cc & 0x0f == cc
    ensures Counter(cc, k) & 0x0f == Counter(cc, k)
    decreases k
  {
    if k > 0 {
      NextLow(cc);
      CounterLow(NextCounter(cc), k - 1);
    }
  }

  lemma NextLow(cc: bv8)
    ensures NextCounter(cc) & 0x0f == NextCounter(cc)
  {
  }

  lemma {:induction false} CountConcat(a: seq<Bytes>, b: seq<Bytes>, pid: bv16)
    requires Full(a) && Full(b)
    ensures Full(a + b) && Count(a + b, pid) == Count(a, pid) + Count(b, pid)
    decreases |b|
  {
    if b == [] {
      assert a + b == a;
    } else {
      var c := a + b;
      assert c[..|c| - 1] == a + b[..|b| - 1];
      CountConcat(a, b[..|b| - 1], pid);
    }
  }

  lemma FirstNumbered(a: seq<Bytes>, b: seq<Bytes>, i: nat, pid: bv16, k: nat)
    requires Full(a) && Full(b) && Full(a + b) && i < |a| && Numbered(a, i, pid, k)
    ensures Numbered(a + b, i, pid, k)
  {
    hide PidOf, CounterOf, Counter, Count;
    assert (a + b)[..i] == a[..i] && (a + b)[i] == a[i];
  }

  lemma SecondNumbered(a: seq<Bytes>, b: seq<Bytes>, i: nat, pid: bv16, k: nat)
    requires Full(a) && Full(b) && Full(a + b) && i < |b| && Numbered(b, i, pid, k + Count(a, pid))
    ensures Numbered(a + b, |a| + i, pid, k)
  {
    CountConcat(a, b[..i], pid);
    hide PidOf, CounterOf, Counter, Count;
    assert (a + b)[..|a| + i] == a + b[..i] && (a + b)[|a| + i] == b[i];
  }

  lemma InOrderConcat(a: seq<Bytes>, b: seq<Bytes>, pid: bv16, k: nat)
    requires Full(a) && Full(b) && InOrder(a, pid, k) && InOrder(b, pid, k + Count(a, pid))
    ensures Full(a + b) && InOrder(a + b, pid, k)
  {
    hide Numbered, Count;
    var c := a + b;
    forall i | 0 <= i < |c|
      ensures Numbered(c, i, pid, k)
    {
      if i < |a| {
        FirstNumbered(a, b, i, pid, k);
      } else {
        SecondNumbered(a, b, i - |a|, pid, k);
      }
    }
  }

  lemma {:induction false} CountAll(ps: seq<Bytes>, own: bv16, pid: bv16)
    requires Full(ps) && forall i | 0 <= i < |ps| :: PidOf(ps[i]) == own
    ensures Count(ps, pid) == if pid == own then |ps| else 0
  {
    hide PidOf;
    if ps != [] {
      CountAll(ps[..|ps| - 1], own, pid);
    }
  }

  lemma WellMuxedAt(ps: seq<Bytes>, i: nat, own: bv16, cc: bv8)
    requires Full(ps) && i < |ps| && WellMuxed(ps, own, true, cc)
    ensures PidOf(ps[i]) == own && CounterOf(ps[i]) == Counter(cc, i) & 0x0f
    ensures forall j | 0 <= j < i :: PidOf(ps[..i][j]) == own
  {
    hide PidOf, CounterOf, StartsUnit, Counter;
    assert HeadedBy(ps[i], own, i == 0, Counter(cc, i));
    forall j | 0 <= j < i
      ensures PidOf(ps[..i][j]) == own
    {
      assert HeadedBy(ps[j], own, j == 0, Counter(cc, j));
    }
  }

  lemma BatchNumbered(ps: seq<Bytes>, i: nat, own: bv16, cc: bv8, pid: bv16, k: nat)
    requires Full(ps) && i < |ps| && WellMuxed(ps, own, true, cc) && (pid == own ==> cc == Counter(0, k))
    ensures Numbered(ps, i, pid, k)
  {
    hide PidOf, CounterOf, StartsUnit, Counter, Count, WellMuxed;
    WellMuxedAt(ps, i, own, cc);
    CountAll(ps[..i], own, pid);
    CounterAdd(0, k, i);
    CounterLow(0, k + i);
  }

  // The packets of one PES packet number on.
  lemma BatchInOrder(ps: seq<Bytes>, own: bv16, cc: bv8, pid: bv16, k: nat)
    requires Full(ps) && WellMuxed(ps, own, true, cc) && (pid == own ==> cc == Counter(0, k))
    ensures InOrder(ps, pid, k) && Count(ps, pid) == if pid == own then |ps| else 0
  {
    assert forall i | 0 <= i < |ps| :: PidOf(ps[i]) == own;
    hide PidOf, CounterOf, StartsUnit, Counter, Count, WellMuxed, Numbered;
    CountAll(ps, own, pid);
    forall i | 0 <= i < |ps|
      ensures Numbered(ps, i, pid, k)
    {
      BatchNumbered(ps, i, own, cc, pid, k);
    }
  }

  function CcOf(m: Mux, pid: bv16): bv8 {
    if pid == PID_PAT then m.ccPat
    else if pid == PID_PMT then m.ccPmt
    else if pid == PID_VIDEO then m.ccVideo
    else m.ccAudio
  }

  predicate Ours(pid: bv16) {
    pid == PID_PAT || pid == PID_PMT || pid == PID_VIDEO || pid == PID_AUDIO
  }

  // What one call has to do for one PID
  predicate Numbers(m: Mux, c: Call, pid: bv16, k: nat) {
    var ps := Sent(m, c);
    InOrder(ps, pid, k) && CcOf(Next(m, c), pid) == Counter(0, k + Count(ps, pid))
  }

  lemma TablesAre(m: Mux, n: nat)
    requires n >= 2
    ensures Sent(m, Tables(n)) == [PatPacket(m.ccPat), PmtPacket(m)]
    ensures Next(m, Tables(n)) == m.(ccPat := NextCounter(m.ccPat), ccPmt := NextCounter(m.ccPmt), patCounter := 0)
  {
    hide PatPacket, PmtPacket, NextCounter;
  }

  lemma CcMoves(m: Mux, r: Mux, pid: bv16)
    requires r.ccPat == NextCounter(m.ccPat) && r.ccPmt == NextCounter(m.ccPmt)
    requires r.ccVideo == m.ccVideo && r.ccAudio == m.ccAudio
    ensures pid == PID_PAT ==> CcOf(m, pid) == m.ccPat
    ensures pid == PID_PMT ==> CcOf(m, pid) == m.ccPmt
    ensures CcOf(r, pid) == if pid == PID_PAT || pid == PID_PMT then NextCounter(CcOf(m, pid)) else CcOf(m, pid)
  {
    hide NextCounter;
  }

  lemma CcAfterTables(m: Mux, n: nat, pid: bv16)
    requires n >= 2
    ensures pid == PID_PAT ==> CcOf(m, pid) == m.ccPat
    ensures pid == PID_PMT ==> CcOf(m, pid) == m.ccPmt
    ensures CcOf(Next(m, Tables(n)), pid)
         == if pid == PID_PAT || pid == PID_PMT then NextCounter(CcOf(m, pid)) else CcOf(m, pid)
  {
    hide *;
    TablesAre(m, n);
    CcMoves(m, Next(m, Tables(n)), pid);
  }

  lemma NumbersIs(m: Mux, c: Call, pid: bv16, k: nat, n: nat)
    requires InOrder(Sent(m, c), pid, k) && Count(Sent(m, c), pid) == n
    requires CcOf(Next(m, c), pid) == Counter(0, k + n)
    ensures Numbers(m, c, pid, k)
  {
    hide Sent, Next, CcOf, InOrder, Counter, Count;
  }

  lemma PidsDiffer()
    ensures PID_PAT != PID_PMT
  {
  }

  lemma TablesNumber(m: Mux, n: nat, pid: bv16, k: nat)
    requires n >= 2 && Ours(pid) && CcOf(m, pid) == Counter(0, k)
    ensures Numbers(m, Tables(n), pid, k)
  {
    hide *;
    TablesAre(m, n);
    PatPacketBack(m.ccPat);
    PmtPacketBack(m);
    CcAfterTables(m, n, pid);
    PidsDiffer();
    TwoNumber(PatPacket(m.ccPat), PmtPacket(m), PID_PAT, PID_PMT, m.ccPat, m.ccPmt, pid, k);
    CounterOne(CcOf(m, pid));
    CounterAdd(0, k, 1);
    NumbersIs(m, Tables(n), pid, k, if pid == PID_PAT || pid == PID_PMT then 1 else 0);
  }

  lemma CounterOne(cc: bv8)
    ensures Counter(cc, 1) == NextCounter(cc) && Counter(cc, 0) == cc
  {
  }

  lemma PatPacketBack(cc: bv8)
    ensures PidOf(PatPacket(cc)) == PID_PAT && CounterOf(PatPacket(cc)) == cc & 0x0f
    ensures SectionOf(PatPacket(cc)) == WithCrc(PatSection())
  {
    PatLength();
    hide TablePacket, PatSection, SectionLength, WithCrc, SectionOf, PidOf, CounterOf;
    TableBack(PID_PAT, cc, PatSection());
  }

  lemma PmtPacketBack(m: Mux)
    ensures PidOf(PmtPacket(m)) == PID_PMT && CounterOf(PmtPacket(m)) == m.ccPmt & 0x0f
    ensures SectionOf(PmtPacket(m)) == WithCrc(PmtSection(m.video, m.audio, m.channels))
  {
    PmtLength(m.video, m.audio, m.channels);
    hide TablePacket, PmtSection, SectionLength, WithCrc, SectionOf, PidOf, CounterOf;
    TableBack(PID_PMT, m.ccPmt, PmtSection(m.video, m.audio, m.channels));
  }

  // Two packets of different PIDs
  lemma TwoNumber(a: Bytes, b: Bytes, p: bv16, q: bv16, cp: bv8, cq: bv8, pid: bv16, k: nat)
    requires |a| == |b| == PACKET && PidOf(a) == p && PidOf(b) == q && p != q
    requires CounterOf(a) == cp & 0x0f && CounterOf(b) == cq & 0x0f
    requires (pid == p ==> cp == Counter(0, k)) && (pid == q ==> cq == Counter(0, k))
    ensures InOrder([a, b], pid, k) && Count([a, b], pid) == if pid == p || pid == q then 1 else 0
  {
    hide PidOf, CounterOf, Counter;
    CounterLow(0, k);
    var ps := [a, b];
    assert ps[..0] == [] && ps[..1] == [a] && [a][..0] == [] && ps[..|ps| - 1] == [a];
    assert Count([a], pid) == if p == pid then 1 else 0;
    assert Numbered(ps, 0, pid, k);
    assert Numbered(ps, 1, pid, k);
  }

  lemma PesNumber(m: Mux, c: Call, own: bv16, cc: bv8, pid: bv16, k: nat)
    requires WellMuxed(Sent(m, c), own, true, cc) && Ours(pid) && CcOf(m, pid) == Counter(0, k)
    requires pid == own ==> cc == CcOf(m, pid)
    requires CcOf(Next(m, c), pid) == if pid == own then Counter(cc, |Sent(m, c)|) else CcOf(m, pid)
    ensures Numbers(m, c, pid, k)
  {
    hide Sent, Next, CcOf, WellMuxed, InOrder, Counter;
    BatchInOrder(Sent(m, c), own, cc, pid, k);
    CounterAdd(0, k, |Sent(m, c)|);
  }

  lemma VideoNumbers(m: Mux, c: Call, pid: bv16, k: nat)
    requires c.Video? && c.data != [] && Ours(pid) && CcOf(m, pid) == Counter(0, k)
    ensures Numbers(m, c, pid, k)
  {
    hide Packets, WellMuxed, Counter, VideoHeader, VideoExtra, NextPcr, Word;
    var data := VideoHeader(Word(c.pts), Word(c.dts)) + c.data;
    MuxThenDemux(PID_VIDEO, m.ccVideo, VideoExtra(m, c.dts, c.idr), data, c.n);
    PesNumber(m, c, PID_VIDEO, m.ccVideo, pid, k);
  }

  lemma AudioNumbers(m: Mux, c: Call, pid: bv16, k: nat)
    requires c.Audio? && c.data != [] && m.audio != NO_AUDIO && Ours(pid) && CcOf(m, pid) == Counter(0, k)
    ensures Numbers(m, c, pid, k)
  {
    hide Packets, WellMuxed, Counter, AudioHeader, Word;
    var data := AudioHeader(m.audio, |c.data|, Word(c.pts)) + c.data;
    MuxThenDemux(PID_AUDIO, m.ccAudio, NOTHING, data, c.n);
    PesNumber(m, c, PID_AUDIO, m.ccAudio, pid, k);
  }

  lemma NothingNumbers(m: Mux, c: Call, pid: bv16, k: nat)
    requires Sent(m, c) == [] && Next(m, c) == m && CcOf(m, pid) == Counter(0, k)
    ensures Numbers(m, c, pid, k)
  {
    hide Sent, Next, CcOf, Counter;
  }

  lemma CallNumbers(m: Mux, c: Call, pid: bv16, k: nat)
    requires Ours(pid) && CcOf(m, pid) == Counter(0, k)
    ensures Numbers(m, c, pid, k)
  {
    hide Numbers, CcOf, Counter, TablePackets, VideoPackets, AudioPackets;
    match c
    case Tables(n) =>
      if n < 2 {
        NothingNumbers(m, c, pid, k);
      } else {
        TablesNumber(m, n, pid, k);
      }
    case Video(n, data, pts, dts, idr) =>
      if data == [] {
        NothingNumbers(m, c, pid, k);
      } else {
        VideoNumbers(m, c, pid, k);
      }
    case Audio(n, data, pts) =>
      if data == [] || m.audio == NO_AUDIO {
        NothingNumbers(m, c, pid, k);
      } else {
        AudioNumbers(m, c, pid, k);
      }
  }

  lemma {:induction false} RunNumbers(m: Mux, calls: seq<Call>, pid: bv16, k: nat)
    requires Ours(pid) && CcOf(m, pid) == Counter(0, k)
    ensures InOrder(Output(m, calls), pid, k)
    decreases |calls|
  {
    hide Sent, Next, CcOf, Counter, Count, Numbered, Ours;
    if calls != [] {
      var c := calls[0];
      CallNumbers(m, c, pid, k);
      var ps, rest := Sent(m, c), Output(Next(m, c), calls[1..]);
      RunNumbers(Next(m, c), calls[1..], pid, k + Count(ps, pid));
      InOrderConcat(ps, rest, pid, k);
    }
  }

  predicate Reads(cc: bv8, r: nat) {
    cc as nat == r
  }

  lemma {:induction false} CounterReads(k: nat)
    ensures Reads(Counter(0, k), k % 16)
    decreases k
  {
    hide *;
    CounterUnfold(0, 0);
    ReadsZero();
    if k > 0 {
      CounterReads(k - 1);
      CounterAdd(0, k - 1, 1);
      CounterOne(Counter(0, k - 1));
      NextIs(Counter(0, k - 1), (k - 1) % 16);
      assert ((k - 1) % 16 + 1) % 16 == k % 16;
    }
  }

  lemma ReadsZero()
    ensures Reads(0, 0)
  {
  }

  lemma NextIs(cc: bv8, r: nat)
    requires Reads(cc, r) && r < 16
    ensures Reads(NextCounter(cc), (r + 1) % 16)
  {
  }

  lemma CounterIs(k: nat)
    ensures Counter(0, k) as nat == k % 16
  {
    hide Counter;
    CounterReads(k);
  }

  // ---- no packet is on another PID

  predicate AllOurs(ps: seq<Bytes>)
    requires forall i | 0 <= i < |ps| :: |ps[i]| == PACKET
  {
    forall i | 0 <= i < |ps| :: Ours(PidOf(ps[i]))
  }

  lemma MuxedOurs(ps: seq<Bytes>, pid: bv16, cc: bv8)
    requires forall i | 0 <= i < |ps| :: |ps[i]| == PACKET
    requires WellMuxed(ps, pid, true, cc) && Ours(pid)
    ensures AllOurs(ps)
  {
    hide PidOf, CounterOf, Counter, Ours;
    forall i | 0 <= i < |ps|
      ensures Ours(PidOf(ps[i]))
    {
      assert HeadedBy(ps[i], pid, i == 0, Counter(cc, i));
    }
  }

  lemma TablesOurs(m: Mux, n: nat)
    requires n >= 2
    ensures AllOurs(Sent(m, Tables(n)))
  {
    hide *;
    TablesAre(m, n);
    PatPacketBack(m.ccPat);
    PmtPacketBack(m);
    TwoOurs(PatPacket(m.ccPat), PmtPacket(m));
  }

  lemma TwoOurs(a: Bytes, b: Bytes)
    requires |a| == |b| == PACKET && PidOf(a) == PID_PAT && PidOf(b) == PID_PMT
    ensures AllOurs([a, b])
  {
    hide PidOf;
  }

  lemma CallOurs(m: Mux, c: Call)
    ensures AllOurs(Sent(m, c))
  {
    hide Packets, WellMuxed, Counter, VideoHeader, AudioHeader, VideoExtra, Word, AllOurs;
    match c
    case Tables(n) => if n >= 2 { TablesOurs(m, n); } else { NoneOurs(); }
    case Video(n, data, pts, dts, idr) =>
      if data != [] {
        var sent := VideoHeader(Word(pts), Word(dts)) + data;
        MuxThenDemux(PID_VIDEO, m.ccVideo, VideoExtra(m, dts, idr), sent, n);
        MuxedOurs(Sent(m, c), PID_VIDEO, m.ccVideo);
      } else {
        NoneOurs();
      }
    case Audio(n, data, pts) =>
      if data != [] && m.audio != NO_AUDIO {
        var sent := AudioHeader(m.audio, |data|, Word(pts)) + data;
        MuxThenDemux(PID_AUDIO, m.ccAudio, NOTHING, sent, n);
        MuxedOurs(Sent(m, c), PID_AUDIO, m.ccAudio);
      } else {
        NoneOurs();
      }
  }

  lemma NoneOurs()
    ensures AllOurs([])
  {
  }

  lemma OursAppend(a: seq<Bytes>, b: seq<Bytes>)
    requires forall i | 0 <= i < |a| :: |a[i]| == PACKET
    requires forall i | 0 <= i < |b| :: |b[i]| == PACKET
    requires AllOurs(a) && AllOurs(b)
    ensures AllOurs(a + b)
  {
    hide PidOf, Ours;
  }

  lemma {:induction false} RunOurs(m: Mux, calls: seq<Call>)
    ensures AllOurs(Output(m, calls))
    decreases |calls|
  {
    hide Sent, Next, AllOurs;
    if calls == [] {
      NoneOurs();
    } else {
      CallOurs(m, calls[0]);
      RunOurs(Next(m, calls[0]), calls[1..]);
      OursAppend(Sent(m, calls[0]), Output(Next(m, calls[0]), calls[1..]));
    }
  }

  /** Continuity. Over any run of table, video and audio calls, into buffers of any
      sizes, every packet is on one of the four PIDs, and the j-th packet of each
      carries j modulo 16. */
  lemma CountersRun(video: bv8, audio: bv8, channels: bv8, calls: seq<Call>, i: nat)
    requires i < |Output(Start(video, audio, channels), calls)|
    ensures var ps := Output(Start(video, audio, channels), calls);
            Ours(PidOf(ps[i])) && CounterOf(ps[i]) as nat == Count(ps[..i], PidOf(ps[i])) % 16
  {
    var m := Start(video, audio, channels);
    var ps := Output(m, calls);
    var pid := PidOf(ps[i]);
    RunOurs(m, calls);
    assert Ours(pid);
    assert CcOf(m, pid) == Counter(0, 0);
    hide Output, Ours, CcOf, Counter, PidOf, CounterOf, Count;
    RunNumbers(m, calls, pid, 0);
    assert Numbered(ps, i, pid, 0);
    CounterIs(Count(ps[..i], pid));
  }
}
