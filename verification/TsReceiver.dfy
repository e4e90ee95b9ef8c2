/** A receiver of the whole stream, per sections 2.4.3 and 2.4.4 of ISO/IEC 13818-1. It
    knows nothing but PID 0: the program association section names the program map's
    PID, the map names the clock's PID and each stream's, and the packets of a PID are
    joined, from each unit start on, to the PES packets they carry. */
module TsReceiver {
  import opened Basics
  import opened TsCrc
  import opened TsPacket
  import opened TsPes
  import opened TsTables
  import opened TsMux

  // ---- sections

  // The thirteen bits of a PID in a section
  function Pid13(high: bv8, low: bv8): bv16 {
    ((high & 0x1f) as bv16 << 8) | low as bv16
  }

  // A length of twelve bits
  function Length12(high: bv8, low: bv8): nat {
    (high & 0x0f) as nat * 256 + low as nat
  }

  // A current section with this table_id, the only one of its table, and its CRC right
  predicate Readable(s: Bytes, table: bv8) {
    && |s| >= 12 && s[0] == table && s[1] & 0x80 != 0 && SectionLength(s) == |s| - 3
    && s[5] & 0x01 != 0 && s[6] == 0 && s[7] == 0 && Checks(s)
  }

  datatype Association = Association(program: nat, pid: bv16)

  function Associations(b: Bytes): seq<Association> {
    if |b| < 4 then []
    else [Association(b[0] as nat * 256 + b[1] as nat, Pid13(b[2], b[3]))] + Associations(b[4..])
  }

  // Section 2.4.4.3, behind the header and in front of the CRC
  function AssociationsIn(s: Bytes): seq<Association>
    requires |s| >= 12
  {
    Associations(s[8..|s| - 4])
  }

  datatype Descriptor = Descriptor(tag: bv8, body: Bytes)

  function Descriptors(b: Bytes): seq<Descriptor>
    decreases |b|
  {
    if |b| < 2 || |b| < 2 + b[1] as nat then []
    else
      var n := 2 + b[1] as nat;
      [Descriptor(b[0], b[2..n])] + Descriptors(b[n..])
  }

  datatype Stream = Stream(kind: bv8, pid: bv16, about: seq<Descriptor>)

  function Streams(b: Bytes): seq<Stream>
    decreases |b|
  {
    if |b| < 5 || |b| < 5 + Length12(b[3], b[4]) then []
    else
      var n := 5 + Length12(b[3], b[4]);
      [Stream(b[0], Pid13(b[1], b[2]), Descriptors(b[5..n]))] + Streams(b[n..])
  }

  datatype ProgramMap = ProgramMap(number: nat, clock: bv16, streams: seq<Stream>)

  // Section 2.4.4.8
  function MapIn(s: Bytes): Option<ProgramMap>
    requires |s| >= 12
  {
    var n := 12 + Length12(s[10], s[11]);
    if |s| < n + 4 then None
    else Some(ProgramMap(s[3] as nat * 256 + s[4] as nat, Pid13(s[8], s[9]), Streams(s[n..|s| - 4])))
  }

  // ---- the packets of one PID

  predicate On(p: Bytes, pid: bv16)
    requires |p| == PACKET
  {
    p[0] == 0x47 && PidOf(p) == pid
  }

  function OnPid(ps: seq<Bytes>, pid: bv16): (qs: seq<Bytes>)
    requires Full(ps)
    ensures Full(qs) && |qs| <= |ps|
  {
    if ps == [] then [] else (if On(ps[0], pid) then [ps[0]] else []) + OnPid(ps[1..], pid)
  }

  // What each unit start and the packets behind it carry
  function Units(ps: seq<Bytes>): seq<Bytes>
    requires Full(ps)
  {
    if ps == [] then []
    else
      var us, p := Units(ps[..|ps| - 1]), ps[|ps| - 1];
      if StartsUnit(p) then us + [PayloadOf(p)]
      else if us == [] then []
      else us[..|us| - 1] + [us[|us| - 1] + PayloadOf(p)]
  }

  // ---- tuning in

  // The first packet of a PID
  function SectionOn(ps: seq<Bytes>, pid: bv16): Bytes
    requires Full(ps)
  {
    var qs := OnPid(ps, pid);
    if qs == [] || !StartsUnit(qs[0]) then [] else SectionOf(qs[0])
  }

  function Tune(ps: seq<Bytes>): Option<ProgramMap>
    requires Full(ps)
  {
    var pat := SectionOn(ps, 0);
    if !Readable(pat, 0x00) || AssociationsIn(pat) == [] then None
    else
      var a := AssociationsIn(pat)[0];
      var pmt := SectionOn(ps, a.pid);
      if !Readable(pmt, 0x02) then None else MapIn(pmt)
  }

  // ---- what a multiplexer announces

  // "Opus" and the channel code, for an Opus stream
  function About(audio: bv8, channels: bv8): seq<Descriptor> {
    if audio == OPUS then [Descriptor(0x05, [0x4f, 0x70, 0x75, 0x73]), Descriptor(0x7f, [0x80, channels])] else []
  }

  function Announced(m: Mux): ProgramMap {
    ProgramMap(1, PID_VIDEO,
               [Stream(m.video, PID_VIDEO, [])]
               + if m.audio == NO_AUDIO then [] else [Stream(m.audio, PID_AUDIO, About(m.audio, m.channels))])
  }

  lemma PatReads()
    ensures var s := WithCrc(PatSection());
            Readable(s, 0x00) && AssociationsIn(s) == [Association(1, PID_PMT)]
  {
    var s := WithCrc(PatSection());
    PatLength();
    PatChecks();
    hide TableCrc, SectionLength, Checks;
    assert s[..12] == PatSection();
    assert s[0] == s[..12][0] && s[1] == s[..12][1] && s[5] == s[..12][5] && s[6] == s[..12][6] && s[7] == s[..12][7];
    assert s[8..12] == [0x00, 0x01, 0xf0, 0x00];
    OneAssociation(s[8..12]);
  }

  lemma OneAssociation(b: Bytes)
    requires b == [0x00, 0x01, 0xf0, 0x00]
    ensures Associations(b) == [Association(1, PID_PMT)]
  {
    assert Associations(b[4..]) == [];
    assert Pid13(0xf0, 0x00) == 0x1000;
  }

  lemma OpusAbout(channels: bv8)
    ensures Descriptors([0x05, 0x04, 0x4f, 0x70, 0x75, 0x73, 0x7f, 0x02, 0x80, channels]) == About(OPUS, channels)
  {
    var b := [0x05, 0x04, 0x4f, 0x70, 0x75, 0x73, 0x7f, 0x02, 0x80, channels];
    assert b[2..6] == [0x4f, 0x70, 0x75, 0x73];
    assert b[6..] == [0x7f, 0x02, 0x80, channels];
    LastDescriptor(channels);
  }

  lemma LastDescriptor(channels: bv8)
    ensures Descriptors([0x7f, 0x02, 0x80, channels]) == [Descriptor(0x7f, [0x80, channels])]
  {
    var b := [0x7f, 0x02, 0x80, channels];
    assert b[2..4] == [0x80, channels];
    assert Descriptors(b[4..]) == [];
  }

  // The entry of one stream and what follows it
  lemma StreamThen(kind: bv8, high: bv8, low: bv8, long: bv8, short: bv8, d: Bytes, rest: Bytes)
    requires |d| == Length12(long, short)
    ensures Streams([kind, high, low, long, short] + d + rest)
         == [Stream(kind, Pid13(high, low), Descriptors(d))] + Streams(rest)
  {
    hide Descriptors, Pid13, Length12;
    var b := [kind, high, low, long, short] + d + rest;
    assert b[5..5 + |d|] == d && b[5 + |d|..] == rest;
  }

  lemma KnownPids()
    ensures Pid13(0xe1, 0x00) == PID_VIDEO && Pid13(0xe1, 0x01) == PID_AUDIO
    ensures Length12(0xf0, 0x00) == 0 && Length12(0xf0, 0x0a) == 10
  {
  }

  lemma Nothing()
    ensures Streams([]) == [] && Descriptors([]) == []
  {
  }

  lemma AudioIs(audio: bv8, channels: bv8)
    requires audio != NO_AUDIO
    ensures audio == OPUS ==>
              AudioEntry(audio, channels)
              == [audio, 0xe1, 0x01, 0xf0, 0x0a]
                 + [0x05, 0x04, 0x4f, 0x70, 0x75, 0x73, 0x7f, 0x02, 0x80, channels] + []
    ensures audio != OPUS ==> AudioEntry(audio, channels) == [audio, 0xe1, 0x01, 0xf0, 0x00] + [] + []
  {
  }

  lemma AudioReads(audio: bv8, channels: bv8)
    requires audio != NO_AUDIO
    ensures Streams(AudioEntry(audio, channels)) == [Stream(audio, PID_AUDIO, About(audio, channels))]
  {
    hide Streams, Descriptors, AudioEntry, Pid13, Length12;
    KnownPids();
    Nothing();
    AudioIs(audio, channels);
    if audio == OPUS {
      OpusAbout(channels);
      StreamThen(audio, 0xe1, 0x01, 0xf0, 0x0a,
                 [0x05, 0x04, 0x4f, 0x70, 0x75, 0x73, 0x7f, 0x02, 0x80, channels], []);
    } else {
      StreamThen(audio, 0xe1, 0x01, 0xf0, 0x00, [], []);
    }
  }

  lemma StreamsRead(video: bv8, audio: bv8, channels: bv8)
    ensures Streams([video, 0xe1, 0x00, 0xf0, 0x00] + AudioEntry(audio, channels))
         == [Stream(video, PID_VIDEO, [])]
            + if audio == NO_AUDIO then [] else [Stream(audio, PID_AUDIO, About(audio, channels))]
  {
    hide Streams, Descriptors, Pid13, Length12, About;
    var e := AudioEntry(audio, channels);
    KnownPids();
    Nothing();
    StreamThen(video, 0xe1, 0x00, 0xf0, 0x00, [], e);
    assert [video, 0xe1, 0x00, 0xf0, 0x00] + [] + e == [video, 0xe1, 0x00, 0xf0, 0x00] + e;
    if audio != NO_AUDIO {
      AudioReads(audio, channels);
    }
  }

  // The bytes of the map section, and its CRC
  lemma PmtShape(m: Mux) returns (l: bv8, crc: Bytes)
    ensures var e := AudioEntry(m.audio, m.channels);
            && |crc| == 4
            && WithCrc(PmtSection(m.video, m.audio, m.channels))
               == [0x02, 0xb0, l, 0x00, 0x01, 0xc1, 0x00, 0x00, 0xe1, 0x00, 0xf0, 0x00]
                  + [m.video, 0xe1, 0x00, 0xf0, 0x00] + e + crc
  {
    hide AudioEntry, TableCrc;
    var e := AudioEntry(m.audio, m.channels);
    l := (|PmtBody(m.video, m.audio, m.channels)| + 4) as bv8;
    crc := CrcBytes(TableCrc(PmtSection(m.video, m.audio, m.channels)));
    ProgramIs(m.video, l, e);
  }

  lemma ProgramIs(video: bv8, l: bv8, e: Bytes)
    ensures [0x02, 0xb0, l] + (Program(video) + e)
         == [0x02, 0xb0, l, 0x00, 0x01, 0xc1, 0x00, 0x00, 0xe1, 0x00, 0xf0, 0x00]
            + [video, 0xe1, 0x00, 0xf0, 0x00] + e
  {
  }

  lemma MapOf(l: bv8, streams: Bytes, crc: Bytes)
    requires |crc| == 4
    ensures var s := [0x02, 0xb0, l, 0x00, 0x01, 0xc1, 0x00, 0x00, 0xe1, 0x00, 0xf0, 0x00] + streams + crc;
            && (Readable(s, 0x02) <==> SectionLength(s) == |s| - 3 && Checks(s))
            && MapIn(s) == Some(ProgramMap(1, PID_VIDEO, Streams(streams)))
  {
    hide Streams, Checks, SectionLength, Pid13, Length12;
    KnownPids();
    var s := [0x02, 0xb0, l, 0x00, 0x01, 0xc1, 0x00, 0x00, 0xe1, 0x00, 0xf0, 0x00] + streams + crc;
    assert s[12..|s| - 4] == streams;
  }

  lemma PmtReads(m: Mux)
    ensures var s := WithCrc(PmtSection(m.video, m.audio, m.channels));
            && |s| >= 12 && (Readable(s, 0x02) <==> Checks(s))
            && MapIn(s) == Some(Announced(m))
  {
    hide *;
    var e := AudioEntry(m.audio, m.channels);
    var l, crc := PmtShape(m);
    PmtLength(m.video, m.audio, m.channels);
    StreamsRead(m.video, m.audio, m.channels);
    MapOf(l, [m.video, 0xe1, 0x00, 0xf0, 0x00] + e, crc);
    AnnouncedIs(m);
    Front([0x02, 0xb0, l, 0x00, 0x01, 0xc1, 0x00, 0x00, 0xe1, 0x00, 0xf0, 0x00], [m.video, 0xe1, 0x00, 0xf0, 0x00],
          e, crc);
  }

  lemma Front(a: Bytes, b: Bytes, c: Bytes, d: Bytes)
    ensures a + b + c + d == a + (b + c) + d
  {
  }

  lemma AnnouncedIs(m: Mux)
    ensures Announced(m)
         == ProgramMap(1, PID_VIDEO,
                       [Stream(m.video, PID_VIDEO, [])]
                       + if m.audio == NO_AUDIO then [] else [Stream(m.audio, PID_AUDIO, About(m.audio, m.channels))])
  {
  }

  // ---- the packets of one PID in a run

  function Kept(p: Bytes, pid: bv16): (qs: seq<Bytes>)
    requires |p| == PACKET
    ensures Full(qs)
  {
    if On(p, pid) then [p] else []
  }

  lemma OnPidCons(p: Bytes, rest: seq<Bytes>, pid: bv16)
    requires |p| == PACKET && Full(rest)
    ensures Full([p] + rest) && OnPid([p] + rest, pid) == Kept(p, pid) + OnPid(rest, pid)
  {
    hide On;
    assert ([p] + rest)[1..] == rest;
  }

  lemma {:induction false} OnPidConcat(a: seq<Bytes>, b: seq<Bytes>, pid: bv16)
    requires Full(a) && Full(b)
    ensures Full(a + b) && OnPid(a + b, pid) == OnPid(a, pid) + OnPid(b, pid)
  {
    hide OnPid, Kept;
    if a == [] {
      assert a + b == b;
      EmptyOn(pid);
    } else {
      var p, rest := a[0], a[1..];
      assert a == [p] + rest && a + b == [p] + (rest + b);
      OnPidConcat(rest, b, pid);
      OnPidCons(p, rest, pid);
      OnPidCons(p, rest + b, pid);
    }
  }

  lemma {:induction false} AllOn(ps: seq<Bytes>, own: bv16, pid: bv16)
    requires Full(ps) && forall i | 0 <= i < |ps| :: On(ps[i], own)
    ensures OnPid(ps, pid) == if pid == own then ps else []
  {
    if ps != [] {
      assert forall i | 0 <= i < |ps[1..]| :: ps[1..][i] == ps[i + 1];
      AllOn(ps[1..], own, pid);
      assert On(ps[0], own);
    }
  }

  lemma MuxedOn(ps: seq<Bytes>, own: bv16, cc: bv8, pid: bv16)
    requires Full(ps) && WellMuxed(ps, own, true, cc)
    ensures OnPid(ps, pid) == if pid == own then ps else []
  {
    forall i | 0 <= i < |ps|
      ensures On(ps[i], own)
    {
      assert HeadedBy(ps[i], own, i == 0, Counter(cc, i));
    }
    AllOn(ps, own, pid);
  }

  lemma TableOn(pid: bv16, cc: bv8, section: Bytes)
    requires |section| <= 32
    ensures TablePacket(pid, cc, section)[0] == 0x47
  {
  }

  lemma TablesOn(m: Mux, n: nat, pid: bv16)
    requires n >= 2
    ensures OnPid(Sent(m, Tables(n)), pid)
         == if pid == PID_PAT then [PatPacket(m.ccPat)] else if pid == PID_PMT then [PmtPacket(m)] else []
  {
    hide *;
    TablesAre(m, n);
    PatPacketBack(m.ccPat);
    PmtPacketBack(m);
    TablesStart(m);
    TwoOn(PatPacket(m.ccPat), PmtPacket(m), pid);
  }

  lemma TablesStart(m: Mux)
    ensures PatPacket(m.ccPat)[0] == 0x47 && PmtPacket(m)[0] == 0x47
    ensures StartsUnit(PatPacket(m.ccPat)) && StartsUnit(PmtPacket(m))
  {
    PatLength();
    PmtLength(m.video, m.audio, m.channels);
    hide TablePacket, PatSection, PmtSection, SectionLength, WithCrc, StartsUnit;
    TableOn(PID_PAT, m.ccPat, PatSection());
    TableOn(PID_PMT, m.ccPmt, PmtSection(m.video, m.audio, m.channels));
    TableBack(PID_PAT, m.ccPat, PatSection());
    TableBack(PID_PMT, m.ccPmt, PmtSection(m.video, m.audio, m.channels));
  }

  lemma TwoOn(a: Bytes, b: Bytes, pid: bv16)
    requires |a| == |b| == PACKET && a[0] == b[0] == 0x47 && PidOf(a) == PID_PAT && PidOf(b) == PID_PMT
    ensures OnPid([a, b], pid) == if pid == PID_PAT then [a] else if pid == PID_PMT then [b] else []
  {
    hide PidOf;
    assert [a, b][1..] == [b] && [b][1..] == [];
    assert OnPid([b], pid) == (if On(b, pid) then [b] else []) + OnPid([], pid);
  }

  // ---- what the calls hand over

  // The PES packet of a call, as far as the n packets of its buffer carry it
  function Whole(audio: bv8, c: Call): Bytes {
    match c
    case Tables(_) => []
    case Video(_, data, pts, dts, _) => VideoHeader(Word(pts), Word(dts)) + data
    case Audio(_, data, pts) => AudioHeader(audio, |data|, Word(pts)) + data
  }

  function Space(c: Call): nat {
    if c.n == 0 then 0 else if c.Video? then 176 + 184 * (c.n - 1) else 184 * c.n
  }

  predicate Carries(audio: bv8, c: Call, pid: bv16) {
    && c.n > 0
    && ((c.Video? && pid == PID_VIDEO && c.data != [])
        || (c.Audio? && pid == PID_AUDIO && c.data != [] && audio != NO_AUDIO))
  }

  function Carried(audio: bv8, c: Call, pid: bv16): seq<Bytes> {
    if Carries(audio, c, pid) then [Whole(audio, c)[..Min(|Whole(audio, c)|, Space(c))]] else []
  }

  function AllCarried(audio: bv8, calls: seq<Call>, pid: bv16): seq<Bytes> {
    if calls == [] then [] else Carried(audio, calls[0], pid) + AllCarried(audio, calls[1..], pid)
  }

  // ---- units

  lemma {:induction false} StartedUnits(b: seq<Bytes>)
    requires Full(b) && b != [] && StartsUnit(b[0])
    ensures Units(b) != []
  {
    hide StartsUnit, PayloadOf;
    if |b| > 1 {
      StartedUnits(b[..|b| - 1]);
    }
  }

  // One more packet
  function Joined(us: seq<Bytes>, p: Bytes): seq<Bytes>
    requires |p| == PACKET
  {
    if StartsUnit(p) then us + [PayloadOf(p)]
    else if us == [] then []
    else us[..|us| - 1] + [us[|us| - 1] + PayloadOf(p)]
  }

  lemma UnitsSnoc(ps: seq<Bytes>, p: Bytes)
    requires Full(ps) && |p| == PACKET
    ensures Full(ps + [p]) && Units(ps + [p]) == Joined(Units(ps), p)
  {
    hide StartsUnit, PayloadOf;
    assert (ps + [p])[..|ps|] == ps;
  }

  lemma JoinedBehind(us: seq<Bytes>, vs: seq<Bytes>, p: Bytes)
    requires |p| == PACKET && (vs != [] || StartsUnit(p))
    ensures Joined(us + vs, p) == us + Joined(vs, p)
  {
    hide StartsUnit, PayloadOf;
    if !StartsUnit(p) {
      assert (us + vs)[..|us + vs| - 1] == us + vs[..|vs| - 1];
    }
  }

  lemma NoUnits()
    ensures Units([]) == [] && Payloads([]) == []
  {
  }

  lemma {:induction false} UnitsConcat(a: seq<Bytes>, b: seq<Bytes>)
    requires Full(a) && Full(b) && (b != [] ==> StartsUnit(b[0]))
    ensures Full(a + b) && Units(a + b) == Units(a) + Units(b)
    decreases |b|
  {
    hide StartsUnit, PayloadOf, Units, Joined;
    if b == [] {
      assert a + b == a;
      NoUnits();
    } else {
      var init, p := b[..|b| - 1], b[|b| - 1];
      assert b == init + [p] && a + b == (a + init) + [p];
      UnitsConcat(a, init);
      if init != [] {
        StartedUnits(init);
      }
      UnitsSnoc(init, p);
      UnitsSnoc(a + init, p);
      JoinedBehind(Units(a), Units(init), p);
    }
  }

  lemma {:induction false} PayloadsSnoc(ps: seq<Bytes>, p: Bytes)
    requires Full(ps) && |p| == PACKET
    ensures Full(ps + [p]) && Payloads(ps + [p]) == Payloads(ps) + PayloadOf(p)
  {
    hide PayloadOf;
    if ps == [] {
      assert [p][1..] == [];
      assert [] + [p] == [p];
    } else {
      assert (ps + [p])[1..] == ps[1..] + [p];
      PayloadsSnoc(ps[1..], p);
    }
  }

  // One unit that the first packet starts is what all of them carry.
  lemma {:induction false} OneUnit(ps: seq<Bytes>)
    requires Full(ps) && ps != [] && forall i | 0 <= i < |ps| :: StartsUnit(ps[i]) <==> i == 0
    ensures Units(ps) == [Payloads(ps)]
  {
    hide StartsUnit, PayloadOf, Units, Payloads;
    var init, p := ps[..|ps| - 1], ps[|ps| - 1];
    assert ps == init + [p];
    PayloadsSnoc(init, p);
    UnitsSnoc(init, p);
    if init != [] {
      OneUnit(init);
    } else {
      NoUnits();
      assert Payloads([]) + PayloadOf(p) == PayloadOf(p);
    }
  }

  lemma MuxedUnit(ps: seq<Bytes>, own: bv16, cc: bv8)
    requires Full(ps) && ps != [] && WellMuxed(ps, own, true, cc)
    ensures Units(ps) == [Payloads(ps)] && StartsUnit(ps[0])
  {
    hide PidOf, StartsUnit, CounterOf, Counter;
    forall i | 0 <= i < |ps|
      ensures StartsUnit(ps[i]) <==> i == 0
    {
      assert HeadedBy(ps[i], own, i == 0, Counter(cc, i));
    }
    OneUnit(ps);
  }

  // ---- one call

  predicate Delivers(m: Mux, c: Call, pid: bv16) {
    var qs := OnPid(Sent(m, c), pid);
    (qs != [] ==> StartsUnit(qs[0])) && Units(qs) == Carried(m.audio, c, pid)
  }

  lemma NoneDelivered(m: Mux, c: Call, pid: bv16)
    requires OnPid(Sent(m, c), pid) == [] && !Carries(m.audio, c, pid)
    ensures Delivers(m, c, pid)
  {
    hide Sent, Carries, OnPid, Units;
    NoUnits();
    assert Carried(m.audio, c, pid) == [];
  }

  lemma BatchDelivers(m: Mux, c: Call, own: bv16, cc: bv8, x: Extra, pid: bv16)
    requires own < 0x2000 && Sent(m, c) == Packets(own, true, cc, x, Whole(m.audio, c), c.n)
    requires Whole(m.audio, c) != [] && Space(c) == Capacity(x, c.n)
    requires Carries(m.audio, c, pid) <==> c.n > 0 && pid == own
    ensures Delivers(m, c, pid)
  {
    hide *;
    var data := Whole(m.audio, c);
    MuxThenDemux(own, cc, x, data, c.n);
    MuxedOn(Sent(m, c), own, cc, pid);
    PacketsSome(own, cc, x, data, c.n);
    if c.n > 0 && pid == own {
      MuxedUnit(Sent(m, c), own, cc);
      CarriedIs(m.audio, c, pid);
      DeliversIs(m, c, pid);
    } else {
      NoneDelivered(m, c, pid);
    }
  }

  lemma DeliversIs(m: Mux, c: Call, pid: bv16)
    requires OnPid(Sent(m, c), pid) == Sent(m, c) && Sent(m, c) != [] && StartsUnit(Sent(m, c)[0])
    requires Units(Sent(m, c)) == Carried(m.audio, c, pid)
    ensures Delivers(m, c, pid)
  {
    hide Sent, StartsUnit, Units, Carried, OnPid;
  }

  lemma CarriedIs(audio: bv8, c: Call, pid: bv16)
    requires Carries(audio, c, pid)
    ensures Carried(audio, c, pid) == [Whole(audio, c)[..Min(|Whole(audio, c)|, Space(c))]]
  {
    hide Whole, Space, Min;
    MinLow(|Whole(audio, c)|, Space(c));
  }

  lemma PacketsSome(pid: bv16, cc: bv8, x: Extra, data: Bytes, n: nat)
    requires data != []
    ensures Packets(pid, true, cc, x, data, n) != [] <==> n > 0
    ensures n == 0 ==> Packets(pid, true, cc, x, data, n) == []
  {
    hide Packet, Room;
  }

  lemma VideoSpace(m: Mux, c: Call)
    requires c.Video?
    ensures Space(c) == Capacity(VideoExtra(m, c.dts, c.idr), c.n)
  {
    hide NextPcr, Word, PcrBytes;
  }

  lemma AudioSpace(c: Call)
    requires c.Audio?
    ensures Space(c) == Capacity(NOTHING, c.n)
  {
  }

  lemma CallDelivers(m: Mux, c: Call, pid: bv16)
    requires pid == PID_VIDEO || pid == PID_AUDIO
    ensures Delivers(m, c, pid)
  {
    hide Packets, VideoHeader, AudioHeader, VideoExtra, Word, Delivers, Units, TablePackets, OnPid, Space;
    if c.Tables? {
      if c.n >= 2 {
        TablesOn(m, c.n, pid);
      } else {
        EmptyOn(pid);
      }
      NoneDelivered(m, c, pid);
    } else if c.data == [] || (c.Audio? && m.audio == NO_AUDIO) {
      EmptyOn(pid);
      NoneDelivered(m, c, pid);
    } else if c.Video? {
      VideoSpace(m, c);
      BatchDelivers(m, c, PID_VIDEO, m.ccVideo, VideoExtra(m, c.dts, c.idr), pid);
    } else {
      AudioSpace(c);
      BatchDelivers(m, c, PID_AUDIO, m.ccAudio, NOTHING, pid);
    }
  }

  lemma EmptyOn(pid: bv16)
    ensures OnPid([], pid) == []
  {
  }

  // ---- whole runs

  lemma SameStream(m: Mux, c: Call)
    ensures var r := Next(m, c); r.video == m.video && r.audio == m.audio && r.channels == m.channels
  {
    hide Sent, NextCounter, Counter, NextPcr;
  }

  lemma {:induction false} RunDelivers(m: Mux, calls: seq<Call>, pid: bv16)
    requires pid == PID_VIDEO || pid == PID_AUDIO
    ensures var qs := OnPid(Output(m, calls), pid);
            (qs != [] ==> StartsUnit(qs[0])) && Units(qs) == AllCarried(m.audio, calls, pid)
    decreases |calls|
  {
    hide Sent, Next, StartsUnit, PayloadOf, On, Carried;
    if calls == [] {
      EmptyOn(pid);
    } else {
      var c := calls[0];
      SameStream(m, c);
      CallDelivers(m, c, pid);
      var ps, rest := Sent(m, c), Output(Next(m, c), calls[1..]);
      RunDelivers(Next(m, c), calls[1..], pid);
      OnPidConcat(ps, rest, pid);
      UnitsConcat(OnPid(ps, pid), OnPid(rest, pid));
    }
  }

  // ---- the tables in a run

  // Some table call finds room for its two packets.
  predicate Announces(calls: seq<Call>) {
    calls != [] && ((calls[0].Tables? && calls[0].n >= 2) || Announces(calls[1..]))
  }

  function TableOf(m: Mux, pid: bv16): (p: Bytes)
    ensures |p| == PACKET
  {
    if pid == PID_PAT then PatPacket(m.ccPat) else PmtPacket(m)
  }

  function TableText(m: Mux, pid: bv16): Bytes {
    if pid == PID_PAT then WithCrc(PatSection()) else WithCrc(PmtSection(m.video, m.audio, m.channels))
  }

  lemma TableCarries(m: Mux, pid: bv16)
    requires pid == PID_PAT || pid == PID_PMT
    ensures SectionOf(TableOf(m, pid)) == TableText(m, pid) && StartsUnit(TableOf(m, pid))
  {
    hide PatPacket, PmtPacket, PatSection, PmtSection, WithCrc, SectionOf, StartsUnit;
    PatPacketBack(m.ccPat);
    PmtPacketBack(m);
    TablesStart(m);
  }

  lemma CallTables(m: Mux, c: Call, pid: bv16)
    requires pid == PID_PAT || pid == PID_PMT
    ensures OnPid(Sent(m, c), pid) == if c.Tables? && c.n >= 2 then [TableOf(m, pid)] else []
  {
    hide Packets, VideoHeader, AudioHeader, VideoExtra, Word, TablePackets, OnPid, WellMuxed, PatPacket, PmtPacket;
    EmptyOn(pid);
    match c
    case Tables(n) =>
      if n >= 2 {
        TablesOn(m, n, pid);
      }
    case Video(n, data, pts, dts, idr) =>
      if data != [] {
        MuxThenDemux(PID_VIDEO, m.ccVideo, VideoExtra(m, dts, idr), VideoHeader(Word(pts), Word(dts)) + data, n);
        MuxedOn(Sent(m, c), PID_VIDEO, m.ccVideo, pid);
      }
    case Audio(n, data, pts) =>
      if data != [] && m.audio != NO_AUDIO {
        MuxThenDemux(PID_AUDIO, m.ccAudio, NOTHING, AudioHeader(m.audio, |data|, Word(pts)) + data, n);
        MuxedOn(Sent(m, c), PID_AUDIO, m.ccAudio, pid);
      }
  }

  lemma SameText(m: Mux, c: Call, pid: bv16)
    ensures TableText(Next(m, c), pid) == TableText(m, pid)
  {
    hide WithCrc, PatSection, PmtSection, Next;
    SameStream(m, c);
  }

  lemma {:induction false} RunTables(m: Mux, calls: seq<Call>, pid: bv16)
    requires pid == PID_PAT || pid == PID_PMT
    ensures SectionOn(Output(m, calls), pid) == if Announces(calls) then TableText(m, pid) else []
    ensures !Announces(calls) ==> OnPid(Output(m, calls), pid) == []
    decreases |calls|
  {
    hide Sent, Next, StartsUnit, SectionOf, OnPid, TableText, TableOf;
    EmptyOn(pid);
    if calls != [] {
      var c := calls[0];
      var ps, rest := Sent(m, c), Output(Next(m, c), calls[1..]);
      CallTables(m, c, pid);
      TableCarries(m, pid);
      SameText(m, c, pid);
      RunTables(Next(m, c), calls[1..], pid);
      OnPidConcat(ps, rest, pid);
    }
  }

  // ---- clock references

  lemma NoClock(pid: bv16, first: bool, cc: bv8, chunk: Bytes)
    requires pid < 0x2000 && 0 < |chunk| <= 184
    ensures ClockOf(Packet(pid, first, cc, NOTHING, chunk)) == None
  {
    var p, a := Packet(pid, first, cc, NOTHING, chunk), Adaptation(NOTHING, |chunk|);
    StartsAt(pid, first, cc, NOTHING, chunk);
    PacketParts(pid, first, cc, NOTHING, chunk);
    hide Packet, HasAdaptation, PayloadStart;
    if |a| > 1 {
      assert p[5] == p[4..4 + |a|][1] == 0;
    }
  }

  lemma {:induction false} BatchClocks(pid: bv16, first: bool, cc: bv8, x: Extra, data: Bytes, n: nat)
    requires pid < 0x2000 && (x == NOTHING || x.pcr.Some?)
    ensures var ps := Packets(pid, first, cc, x, data, n);
            forall i | 0 <= i < |ps| :: ClockOf(ps[i]).Some? <==> i == 0 && x != NOTHING
    decreases n
  {
    hide *;
    PacketsAre(pid, first, cc, x, data, n);
    if data != [] && n > 0 {
      var take := Min(|data|, Room(x));
      var p := Packet(pid, first, cc, x, data[..take]);
      if x == NOTHING {
        BareRoom();
        NoClock(pid, first, cc, data[..take]);
      } else {
        ExtrasBack(pid, first, cc, x, data[..take]);
      }
      BatchClocks(pid, false, NextCounter(cc), NOTHING, data[take..], n - 1);
    }
  }

  lemma BareRoom()
    ensures Room(NOTHING) == 184
  {
  }

  // A clock reference is in the packet if and only if it starts a unit on the clock's PID.
  predicate ClockedRight(p: Bytes)
    requires |p| == PACKET
  {
    ClockOf(p).Some? <==> PidOf(p) == PID_VIDEO && StartsUnit(p)
  }

  predicate AllClockedRight(ps: seq<Bytes>)
    requires Full(ps)
  {
    forall i | 0 <= i < |ps| :: ClockedRight(ps[i])
  }

  lemma MuxedClocks(pid: bv16, cc: bv8, x: Extra, data: Bytes, n: nat)
    requires pid < 0x2000 && (x == NOTHING || x.pcr.Some?) && (pid == PID_VIDEO <==> x != NOTHING)
    ensures AllClockedRight(Packets(pid, true, cc, x, data, n))
  {
    hide Packets, Payloads, Capacity, ClockOf, PidOf, StartsUnit, CounterOf, Counter;
    BatchClocks(pid, true, cc, x, data, n);
    MuxThenDemux(pid, cc, x, data, n);
    var ps := Packets(pid, true, cc, x, data, n);
    forall i | 0 <= i < |ps|
      ensures ClockedRight(ps[i])
    {
      assert HeadedBy(ps[i], pid, i == 0, Counter(cc, i));
    }
  }

  lemma TableClocks(pid: bv16, cc: bv8, section: Bytes)
    requires |section| <= 32 && pid < 0x2000
    ensures ClockOf(TablePacket(pid, cc, section)) == None
  {
    var h := Head(pid, true, 0x10, cc);
    HeadBack(pid, true, 0x10, cc);
    ControlBits(h[3], 0x10);
    TableParts(pid, cc, section);
    hide Head, TablePacket, WithCrc;
    assert TablePacket(pid, cc, section)[3] == h[3];
  }

  lemma TwoClockedRight(a: Bytes, b: Bytes)
    requires |a| == |b| == PACKET && ClockOf(a) == None && ClockOf(b) == None
    requires PidOf(a) == PID_PAT && PidOf(b) == PID_PMT
    ensures AllClockedRight([a, b])
  {
    hide ClockOf, PidOf, StartsUnit;
  }

  lemma NoClocks()
    ensures AllClockedRight([])
  {
  }

  lemma TablesClocked(m: Mux, n: nat)
    requires n >= 2
    ensures AllClockedRight(Sent(m, Tables(n)))
  {
    hide *;
    TablesAre(m, n);
    PatPacketBack(m.ccPat);
    PmtPacketBack(m);
    TwoClocks(m);
    TwoClockedRight(PatPacket(m.ccPat), PmtPacket(m));
  }

  lemma CallClocks(m: Mux, c: Call)
    ensures AllClockedRight(Sent(m, c))
  {
    hide Packets, VideoHeader, AudioHeader, Word, NextPcr, TablePackets, AllClockedRight;
    NoClocks();
    match c
    case Tables(n) =>
      if n >= 2 {
        TablesClocked(m, n);
      }
    case Video(n, data, pts, dts, idr) =>
      if data != [] {
        MuxedClocks(PID_VIDEO, m.ccVideo, VideoExtra(m, dts, idr), VideoHeader(Word(pts), Word(dts)) + data, n);
      }
    case Audio(n, data, pts) =>
      if data != [] && m.audio != NO_AUDIO {
        MuxedClocks(PID_AUDIO, m.ccAudio, NOTHING, AudioHeader(m.audio, |data|, Word(pts)) + data, n);
      }
  }

  lemma TwoClocks(m: Mux)
    ensures ClockOf(PatPacket(m.ccPat)) == None && ClockOf(PmtPacket(m)) == None
  {
    hide TablePacket, ClockOf, PatSection, PmtSection;
    TableClocks(PID_PAT, m.ccPat, PatSection());
    TableClocks(PID_PMT, m.ccPmt, PmtSection(m.video, m.audio, m.channels));
  }

  lemma {:induction false} RunClocks(m: Mux, calls: seq<Call>)
    ensures AllClockedRight(Output(m, calls))
    decreases |calls|
  {
    hide Sent, Next, ClockedRight;
    if calls != [] {
      CallClocks(m, calls[0]);
      RunClocks(Next(m, calls[0]), calls[1..]);
    }
  }

  // ---- main results

  /** Tuning in. Over every run, whatever is written in between, a receiver learns the
      program exactly when some table call found room and the map's CRC is right. It is
      then the program asked for: the clock and the video on one PID, and audio, if
      there is any, on another, with its channel code for Opus. */
  lemma TuneIn(video: bv8, audio: bv8, channels: bv8, calls: seq<Call>)
    ensures var m := Start(video, audio, channels);
            Tune(Output(m, calls))
            == if Announces(calls) && Checks(WithCrc(PmtSection(video, audio, m.channels))) then Some(Announced(m))
               else None
  {
    var m := Start(video, audio, channels);
    hide Output, SectionOn, MapIn, AssociationsIn, Checks, Announced, WithCrc, PatSection, PmtSection;
    RunTables(m, calls, PID_PAT);
    RunTables(m, calls, PID_PMT);
    PatReads();
    PmtReads(m);
  }

  /** Conservation. What a receiver joins on the PID announced for the video is, call by
      call, the PES packets of the video writes, each as far as its buffer had room; the
      same on the PID announced for the audio. Clock references are in exactly the
      packets that start a unit on the PID announced for the clock. */
  lemma Received(video: bv8, audio: bv8, channels: bv8, calls: seq<Call>)
    requires Tune(Output(Start(video, audio, channels), calls)).Some?
    ensures var ps := Output(Start(video, audio, channels), calls);
            var found := Tune(ps).value;
            && |found.streams| == (if audio == NO_AUDIO then 1 else 2)
            && found.streams[0].kind == video
            && Units(OnPid(ps, found.streams[0].pid)) == AllCarried(audio, calls, PID_VIDEO)
            && (audio != NO_AUDIO ==>
                  && found.streams[1].kind == audio
                  && found.streams[1].about == About(audio, if channels == 0 then 1 else channels)
                  && Units(OnPid(ps, found.streams[1].pid)) == AllCarried(audio, calls, PID_AUDIO))
            && forall i | 0 <= i < |ps| :: ClockOf(ps[i]).Some? <==> PidOf(ps[i]) == found.clock && StartsUnit(ps[i])
  {
    var m := Start(video, audio, channels);
    hide Output, Tune, Units, OnPid, AllCarried, Checks, WithCrc, PmtSection, Announces, ClockOf, PidOf, StartsUnit,
      About;
    TuneIn(video, audio, channels, calls);
    RunDelivers(m, calls, PID_VIDEO);
    RunDelivers(m, calls, PID_AUDIO);
    RunClocks(m, calls);
    assert forall i | 0 <= i < |Output(m, calls)| :: ClockedRight(Output(m, calls)[i]);
  }

  // The calls whose PES packets a PID carries, in order
  function CarriedCalls(audio: bv8, calls: seq<Call>, pid: bv16): seq<Call> {
    if calls == [] then []
    else (if Carries(audio, calls[0], pid) then [calls[0]] else []) + CarriedCalls(audio, calls[1..], pid)
  }

  // The PES packet of a call as its reader should see it
  function Played(audio: bv8, c: Call): Pes
    requires !c.Tables?
  {
    if c.Video? then Pes(0xe0, 0, Low33(Word(c.pts)), Low33(Word(c.dts)), c.data)
    else
      Pes(if audio == AAC then 0xc0 else 0xbd, if |c.data| + 8 <= 0xffff then |c.data| + 8 else 0,
          Low33(Word(c.pts)), Low33(Word(c.pts)), c.data)
  }

  predicate HasRoom(audio: bv8, c: Call) {
    !c.Tables? && |Whole(audio, c)| <= Space(c)
  }

  lemma UnitPlays(audio: bv8, c: Call, pid: bv16)
    requires Carries(audio, c, pid) && HasRoom(audio, c)
    ensures Carried(audio, c, pid) == [Whole(audio, c)] && PesOf(Whole(audio, c)) == Some(Played(audio, c))
  {
    hide VideoHeader, AudioHeader, Word, Low33, PesOf, Space;
    var w := Whole(audio, c);
    assert w[..Min(|w|, Space(c))] == w;
    if c.Video? {
      VideoBack(Word(c.pts), Word(c.dts), c.data);
    } else {
      AudioBack(audio, Word(c.pts), c.data);
    }
  }

  /** Playing back. The j-th unit received on a stream's PID is from the j-th call that
      wrote to the stream, and if its buffer had room the PES packet in it parses to the
      data and the time stamps of that call, modulo 2^33. */
  lemma {:induction false} PlaysBack(audio: bv8, calls: seq<Call>, pid: bv16, j: nat)
    requires j < |AllCarried(audio, calls, pid)|
    ensures |CarriedCalls(audio, calls, pid)| == |AllCarried(audio, calls, pid)|
    ensures var c := CarriedCalls(audio, calls, pid)[j];
            Carries(audio, c, pid)
            && (HasRoom(audio, c) ==> PesOf(AllCarried(audio, calls, pid)[j]) == Some(Played(audio, c)))
    decreases |calls|
  {
    hide Whole, Space, Played, PesOf, Low33, HasRoom;
    var c, rest := calls[0], calls[1..];
    CarriedCounts(audio, rest, pid);
    if Carries(audio, c, pid) {
      if j > 0 {
        PlaysBack(audio, rest, pid, j - 1);
      } else if HasRoom(audio, c) {
        UnitPlays(audio, c, pid);
      }
    } else {
      PlaysBack(audio, rest, pid, j);
    }
  }

  lemma {:induction false} CarriedCounts(audio: bv8, calls: seq<Call>, pid: bv16)
    ensures |CarriedCalls(audio, calls, pid)| == |AllCarried(audio, calls, pid)|
  {
    hide Whole, Space, Carries;
    if calls != [] {
      CarriedCounts(audio, calls[1..], pid);
    }
  }
}
