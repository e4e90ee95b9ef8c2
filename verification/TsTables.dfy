/** The program association and program map tables: their sections, and whether
    a receiver's CRC check accepts them.

    The run of the table loop over each fixed part of a section is computed step by
    step; what remains is the one byte that varies, the channel code of an Opus
    stream. */
module TsTables {
  import opened Basics
  import opened TsCrcShift
  import opened TsCrcTable
  import opened TsCrc
  import opened TsPacket

  const PID_PAT: bv16 := 0x0000
  const PID_PMT: bv16 := 0x1000
  const H264: bv8 := 0x1b
  const H265: bv8 := 0x24
  const AAC: bv8 := 0x0f
  const OPUS: bv8 := 0x06
  const NO_AUDIO: bv8 := 0x00

  // ---- the sections, without their CRC

  function PatSection(): (s: Bytes)
    ensures |s| == 12
  {
    [0x00, 0xb0, 0x0d, 0x00, 0x01, 0xc1, 0x00, 0x00, 0x00, 0x01, 0xf0, 0x00]
  }

  // The audio stream's entry; Opus brings its registration and channel descriptors
  function AudioEntry(audio: bv8, channels: bv8): (e: Bytes)
    ensures |e| <= 15
  {
    if audio == NO_AUDIO then []
    else
      [audio, 0xe1, 0x01] +
      (if audio == OPUS then
         [0xf0, 0x0a, 0x05, 0x04, 0x4f, 0x70, 0x75, 0x73, 0x7f, 0x02, 0x80, channels]
       else [0xf0, 0x00])
  }

  // The first fourteen bytes behind section_length
  function Program(video: bv8): (b: Bytes)
    ensures |b| == 14
  {
    [0x00, 0x01, 0xc1, 0x00, 0x00, 0xe1, 0x00, 0xf0, 0x00, video, 0xe1, 0x00, 0xf0, 0x00]
  }

  // From program_number on
  function PmtBody(video: bv8, audio: bv8, channels: bv8): (b: Bytes)
    ensures 14 <= |b| <= 29
  {
    Program(video) + AudioEntry(audio, channels)
  }

  function PmtSection(video: bv8, audio: bv8, channels: bv8): (s: Bytes)
    ensures 17 <= |s| <= 32
  {
    var body := PmtBody(video, audio, channels);
    [0x02, 0xb0, (|body| + 4) as bv8] + body
  }

  function WithCrc(section: Bytes): Bytes {
    section + CrcBytes(TableCrc(section))
  }

  // start_ts_packet, the pointer field, a section and its CRC, and FF to the end
  function TablePacket(pid: bv16, cc: bv8, section: Bytes): (p: Bytes)
    requires |section| <= 32
    ensures |p| == PACKET
  {
    Head(pid, true, 0x10, cc) + [0x00] + WithCrc(section) + Filler(179 - |section|)
  }

  // ---- what a receiver sees

  // section_length, the twelve bits of section 2.4.4.1
  function SectionLength(s: Bytes): nat
    requires |s| >= 3
  {
    (s[1] & 0x0f) as nat * 256 + s[2] as nat
  }

  // The first whole section of a packet that starts one, behind the pointer field
  function SectionOf(p: Bytes): Bytes
    requires |p| == PACKET
  {
    var payload := PayloadOf(p);
    if payload == [] || |payload| < 4 + payload[0] as nat then []
    else
      var rest := payload[1 + payload[0] as nat..];
      if |rest| < 3 + SectionLength(rest) then [] else rest[..3 + SectionLength(rest)]
  }

  predicate Checks(s: Bytes) {
    Crc(s) == 0
  }

  lemma PatLength()
    ensures SectionLength(WithCrc(PatSection())) == |WithCrc(PatSection())| - 3
  {
    hide TableCrc;
    ByteBack(13);
    assert WithCrc(PatSection())[2] == 13 as bv8;
  }

  lemma PmtLength(video: bv8, audio: bv8, channels: bv8)
    ensures var s := WithCrc(PmtSection(video, audio, channels));
            SectionLength(s) == |s| - 3
  {
    var n := |PmtBody(video, audio, channels)| + 4;
    ByteBack(n);
    hide TableCrc, PmtBody;
    assert WithCrc(PmtSection(video, audio, channels))[2] == n as bv8;
    assert WithCrc(PmtSection(video, audio, channels))[1] == 0xb0;
  }

  lemma PlainPayload(pid: bv16, cc: bv8, body: Bytes)
    requires |body| == 184 && pid < 0x2000
    ensures PayloadOf(Head(pid, true, 0x10, cc) + body) == body
    ensures PidOf(Head(pid, true, 0x10, cc) + body) == pid
    ensures StartsUnit(Head(pid, true, 0x10, cc) + body) && CounterOf(Head(pid, true, 0x10, cc) + body) == cc & 0x0f
  {
    var p := Head(pid, true, 0x10, cc) + body;
    assert p == Packet(pid, true, cc, NOTHING, body) by {
      hide Head;
      assert Adaptation(NOTHING, 184) == [];
    }
    PacketBack(pid, true, cc, NOTHING, body);
  }

  lemma TableParts(pid: bv16, cc: bv8, section: Bytes)
    requires |section| <= 32
    ensures var (s, tail) := (WithCrc(section), Filler(179 - |section|));
            TablePacket(pid, cc, section) == Head(pid, true, 0x10, cc) + ([0x00] + (s + tail))
  {
    hide Head, WithCrc;
  }

  lemma SectionIn(payload: Bytes, s: Bytes, tail: Bytes)
    requires payload == [0x00] + (s + tail) && |s| >= 3 && SectionLength(s) == |s| - 3
    ensures |payload| >= 4 && payload[0] == 0 && payload[1..] == s + tail && SectionLength(payload[1..]) == |s| - 3
    ensures payload[1..][..3 + SectionLength(payload[1..])] == s
  {
    SameLength(s, tail);
    hide SectionLength;
    assert payload[1..] == s + tail;
    assert (s + tail)[..|s|] == s;
  }

  /** A table packet parsed: the section comes back with its CRC, because
      section_length spans to the last CRC byte. */
  lemma TableBack(pid: bv16, cc: bv8, section: Bytes)
    requires pid < 0x2000 && 3 <= |section| <= 32
    requires SectionLength(WithCrc(section)) == |WithCrc(section)| - 3
    ensures var p := TablePacket(pid, cc, section);
            SectionOf(p) == WithCrc(section) && PidOf(p) == pid && StartsUnit(p) && CounterOf(p) == cc & 0x0f
  {
    var s, tail := WithCrc(section), Filler(179 - |section|);
    TableParts(pid, cc, section);
    hide Head, WithCrc, PayloadOf, PidOf, StartsUnit, CounterOf, TablePacket, SectionLength, Filler;
    PlainPayload(pid, cc, [0x00] + (s + tail));
    SectionIn([0x00] + (s + tail), s, tail);
  }

  lemma SameLength(s: Bytes, tail: Bytes)
    requires |s| >= 3
    ensures SectionLength(s + tail) == SectionLength(s)
  {
  }

  // A section checks exactly when the table loop got its CRC right.
  lemma ChecksIf(section: Bytes)
    ensures Checks(WithCrc(section)) <==> TableCrc(section) == Crc(section)
  {
    CheckIsZero(section, TableCrc(section));
    hide TableCrc, Crc;
  }

  /** With a CRC that hits faulty table entries at most twice, and not 2^32 - 1 bytes
      apart, a section checks exactly when it hits none. */
  lemma ChecksByFaults(section: Bytes)
    requires Faults(START, section) <= 2
    requires Faults(START, section) == 2 ==> |section| < 0x1_0000_0000
    ensures Checks(WithCrc(section)) <==> Faults(START, section) == 0
  {
    ChecksIf(section);
    CrcByFaults(section);
    hide Faults, Checks, Distance;
  }

  // ---- the remainders along the sections the muxer writes

  // b takes the remainder c to next without a faulty lookup.
  predicate CleanRun(c: bv32, b: Bytes, next: bv32) {
    Faults(c, b) == 0 && TableRun(c, b) == next
  }

  lemma {:induction false} FaultsConcat(c: bv32, a: Bytes, b: Bytes)
    ensures Faults(c, a + b) == Faults(c, a) + Faults(TableRun(c, a), b)
    ensures TableRun(c, a + b) == TableRun(TableRun(c, a), b)
    decreases |a|
  {
    hide Turn, Faulty, Index, Wide;
    if a == [] {
      assert a + b == b;
    } else {
      assert (a + b)[0] == a[0] && (a + b)[1..] == a[1..] + b;
      FaultsConcat(Turn(c, Wide(a[0])), a[1..], b);
    }
  }

  lemma RunThen(c: bv32, a: Bytes, m: bv32, b: Bytes, next: bv32)
    requires CleanRun(c, a, m) && CleanRun(m, b, next)
    ensures CleanRun(c, a + b, next)
  {
    hide Faults, TableRun;
    FaultsConcat(c, a, b);
  }

  predicate Single(c: bv32, b: bv8, next: bv32) {
    !Faulty(Index(c, Wide(b))) && ByteIn(c, Wide(b)) == next
  }

  predicate Quad(c: bv32, b0: bv8, b1: bv8, b2: bv8, b3: bv8, next: bv32) {
    var c1 := ByteIn(c, Wide(b0));
    var c2 := ByteIn(c1, Wide(b1));
    var c3 := ByteIn(c2, Wide(b2));
    Single(c, b0, c1) && Single(c1, b1, c2) && Single(c2, b2, c3) && Single(c3, b3, next)
  }

  lemma CleanTurn(c: bv32, b: bv32)
    requires b < 256 && !Faulty(Index(c, b))
    ensures Turn(c, b) == ByteIn(c, b)
  {
    hide Sum, Turn, ByteIn, Index, Fault, Faulty;
    TurnIs(c, b);
    FaultZero(Index(c, b));
    SumZero(Turn(c, b), ByteIn(c, b), Fault(Index(c, b)));
  }

  lemma SingleRun(c: bv32, b: bv8, next: bv32)
    requires Single(c, b, next)
    ensures CleanRun(c, [b], next)
  {
    CleanTurn(c, Wide(b));
    hide Turn, ByteIn, Index, Faulty, Wide;
    assert [b][0] == b && [b][1..] == [];
    assert TableRun(next, []) == next && Faults(next, []) == 0;
  }

  lemma QuadRun(c: bv32, b0: bv8, b1: bv8, b2: bv8, b3: bv8, next: bv32)
    requires Quad(c, b0, b1, b2, b3, next)
    ensures CleanRun(c, [b0, b1, b2, b3], next)
  {
    var c1 := ByteIn(c, Wide(b0));
    var c2 := ByteIn(c1, Wide(b1));
    var c3 := ByteIn(c2, Wide(b2));
    hide ByteIn, Wide, Single, CleanRun;
    SingleRun(c, b0, c1);
    SingleRun(c1, b1, c2);
    SingleRun(c2, b2, c3);
    SingleRun(c3, b3, next);
    RunThen(c2, [b2], c3, [b3], next);
    RunThen(c1, [b1], c2, [b2] + [b3], next);
    RunThen(c, [b0], c1, [b1] + ([b2] + [b3]), next);
    assert [b0] + ([b1] + ([b2] + [b3])) == [b0, b1, b2, b3];
  }

  // The entry of an Opus stream up to the channel code
  function OpusEntry(): (b: Bytes)
    ensures |b| == 14
  {
    [0x06, 0xe1, 0x01, 0xf0, 0x0a, 0x05, 0x04, 0x4f, 0x70, 0x75, 0x73, 0x7f, 0x02, 0x80]
  }

  function AacEntry(): (b: Bytes)
    ensures |b| == 5
  {
    [0x0f, 0xe1, 0x01, 0xf0, 0x00]
  }

  lemma PatRunSteps()
    ensures Quad(0xffff_ffff, 0x00, 0xb0, 0x0d, 0x00, 0x10b8_654c)
    ensures Quad(0x10b8_654c, 0x01, 0xc1, 0x00, 0x00, 0x8382_57f7)
    ensures Quad(0x8382_57f7, 0x00, 0x01, 0xf0, 0x00, 0x2ab1_04b2)
  {
  }

  lemma PatRun()
    ensures CleanRun(0xffff_ffff, PatSection(), 0x2ab1_04b2)
  {
    PatRunSteps();
    assert PatSection() == [0x00, 0xb0, 0x0d, 0x00] + ([0x01, 0xc1, 0x00, 0x00] + [0x00, 0x01, 0xf0, 0x00]);
    hide *;
    QuadRun(0xffff_ffff, 0x00, 0xb0, 0x0d, 0x00, 0x10b8_654c);
    QuadRun(0x10b8_654c, 0x01, 0xc1, 0x00, 0x00, 0x8382_57f7);
    QuadRun(0x8382_57f7, 0x00, 0x01, 0xf0, 0x00, 0x2ab1_04b2);
    RunThen(0x10b8_654c, [0x01, 0xc1, 0x00, 0x00], 0x8382_57f7, [0x00, 0x01, 0xf0, 0x00], 0x2ab1_04b2);
    RunThen(0xffff_ffff, [0x00, 0xb0, 0x0d, 0x00], 0x10b8_654c, [0x01, 0xc1, 0x00, 0x00] + [0x00, 0x01, 0xf0, 0x00], 0x2ab1_04b2);
  }

  lemma BareHeaderSteps()
    ensures Single(0xffff_ffff, 0x02, 0x478a_84da)
    ensures Single(0x478a_84da, 0xb0, 0x1d7b_770c)
    ensures Single(0x1d7b_770c, 0x12, 0x4338_b1bd)
  {
  }

  lemma BareHeader()
    ensures CleanRun(0xffff_ffff, [0x02, 0xb0, 0x12], 0x4338_b1bd)
  {
    BareHeaderSteps();
    assert [0x02, 0xb0, 0x12] == [0x02] + ([0xb0] + [0x12]);
    hide *;
    SingleRun(0xffff_ffff, 0x02, 0x478a_84da);
    SingleRun(0x478a_84da, 0xb0, 0x1d7b_770c);
    SingleRun(0x1d7b_770c, 0x12, 0x4338_b1bd);
    RunThen(0x478a_84da, [0xb0], 0x1d7b_770c, [0x12], 0x4338_b1bd);
    RunThen(0xffff_ffff, [0x02], 0x478a_84da, [0xb0] + [0x12], 0x4338_b1bd);
  }

  lemma AvcBareProgramSteps()
    ensures Quad(0x4338_b1bd, 0x00, 0x01, 0xc1, 0x00, 0x65a1_78c0)
    ensures Quad(0x65a1_78c0, 0x00, 0xe1, 0x00, 0xf0, 0xc287_ce6d)
    ensures Quad(0xc287_ce6d, 0x00, 0x1b, 0xe1, 0x00, 0x33d8_930f)
    ensures Single(0x33d8_930f, 0xf0, 0x885a_b940)
    ensures Single(0x885a_b940, 0x00, 0x15bd_4d56)
  {
  }

  lemma AvcBareProgram()
    ensures CleanRun(0x4338_b1bd, Program(H264), 0x15bd_4d56)
  {
    AvcBareProgramSteps();
    assert Program(H264) == [0x00, 0x01, 0xc1, 0x00] + ([0x00, 0xe1, 0x00, 0xf0] + ([0x00, 0x1b, 0xe1, 0x00] + ([0xf0] + [0x00])));
    hide *;
    QuadRun(0x4338_b1bd, 0x00, 0x01, 0xc1, 0x00, 0x65a1_78c0);
    QuadRun(0x65a1_78c0, 0x00, 0xe1, 0x00, 0xf0, 0xc287_ce6d);
    QuadRun(0xc287_ce6d, 0x00, 0x1b, 0xe1, 0x00, 0x33d8_930f);
    SingleRun(0x33d8_930f, 0xf0, 0x885a_b940);
    SingleRun(0x885a_b940, 0x00, 0x15bd_4d56);
    RunThen(0x33d8_930f, [0xf0], 0x885a_b940, [0x00], 0x15bd_4d56);
    RunThen(0xc287_ce6d, [0x00, 0x1b, 0xe1, 0x00], 0x33d8_930f, [0xf0] + [0x00], 0x15bd_4d56);
    RunThen(0x65a1_78c0, [0x00, 0xe1, 0x00, 0xf0], 0xc287_ce6d, [0x00, 0x1b, 0xe1, 0x00] + ([0xf0] + [0x00]), 0x15bd_4d56);
    RunThen(0x4338_b1bd, [0x00, 0x01, 0xc1, 0x00], 0x65a1_78c0, [0x00, 0xe1, 0x00, 0xf0] + ([0x00, 0x1b, 0xe1, 0x00] + ([0xf0] + [0x00])), 0x15bd_4d56);
  }

  lemma HevcBareProgramSteps()
    ensures Quad(0x4338_b1bd, 0x00, 0x01, 0xc1, 0x00, 0x65a1_78c0)
    ensures Quad(0x65a1_78c0, 0x00, 0xe1, 0x00, 0xf0, 0xc287_ce6d)
    ensures Quad(0xc287_ce6d, 0x00, 0x24, 0xe1, 0x00, 0x1e89_e832)
    ensures Single(0x1e89_e832, 0xf0, 0x70cf_b473)
    ensures Single(0x70cf_b473, 0x00, 0x2f00_6ee7)
  {
  }

  lemma HevcBareProgram()
    ensures CleanRun(0x4338_b1bd, Program(H265), 0x2f00_6ee7)
  {
    HevcBareProgramSteps();
    assert Program(H265) == [0x00, 0x01, 0xc1, 0x00] + ([0x00, 0xe1, 0x00, 0xf0] + ([0x00, 0x24, 0xe1, 0x00] + ([0xf0] + [0x00])));
    hide *;
    QuadRun(0x4338_b1bd, 0x00, 0x01, 0xc1, 0x00, 0x65a1_78c0);
    QuadRun(0x65a1_78c0, 0x00, 0xe1, 0x00, 0xf0, 0xc287_ce6d);
    QuadRun(0xc287_ce6d, 0x00, 0x24, 0xe1, 0x00, 0x1e89_e832);
    SingleRun(0x1e89_e832, 0xf0, 0x70cf_b473);
    SingleRun(0x70cf_b473, 0x00, 0x2f00_6ee7);
    RunThen(0x1e89_e832, [0xf0], 0x70cf_b473, [0x00], 0x2f00_6ee7);
    RunThen(0xc287_ce6d, [0x00, 0x24, 0xe1, 0x00], 0x1e89_e832, [0xf0] + [0x00], 0x2f00_6ee7);
    RunThen(0x65a1_78c0, [0x00, 0xe1, 0x00, 0xf0], 0xc287_ce6d, [0x00, 0x24, 0xe1, 0x00] + ([0xf0] + [0x00]), 0x2f00_6ee7);
    RunThen(0x4338_b1bd, [0x00, 0x01, 0xc1, 0x00], 0x65a1_78c0, [0x00, 0xe1, 0x00, 0xf0] + ([0x00, 0x24, 0xe1, 0x00] + ([0xf0] + [0x00])), 0x2f00_6ee7);
  }

  lemma AacHeaderSteps()
    ensures Single(0xffff_ffff, 0x02, 0x478a_84da)
    ensures Single(0x478a_84da, 0xb0, 0x1d7b_770c)
    ensures Single(0x1d7b_770c, 0x17, 0x54fd_dad6)
  {
  }

  lemma AacHeader()
    ensures CleanRun(0xffff_ffff, [0x02, 0xb0, 0x17], 0x54fd_dad6)
  {
    AacHeaderSteps();
    assert [0x02, 0xb0, 0x17] == [0x02] + ([0xb0] + [0x17]);
    hide *;
    SingleRun(0xffff_ffff, 0x02, 0x478a_84da);
    SingleRun(0x478a_84da, 0xb0, 0x1d7b_770c);
    SingleRun(0x1d7b_770c, 0x17, 0x54fd_dad6);
    RunThen(0x478a_84da, [0xb0], 0x1d7b_770c, [0x17], 0x54fd_dad6);
    RunThen(0xffff_ffff, [0x02], 0x478a_84da, [0xb0] + [0x17], 0x54fd_dad6);
  }

  lemma AvcAacProgramSteps()
    ensures Quad(0x54fd_dad6, 0x00, 0x01, 0xc1, 0x00, 0xc58_9cce)
    ensures Quad(0xc58_9cce, 0x00, 0xe1, 0x00, 0xf0, 0xf5c6_eb4a)
    ensures Quad(0xf5c6_eb4a, 0x00, 0x1b, 0xe1, 0x00, 0x74ae_bbc7)
    ensures Single(0x74ae_bbc7, 0xf0, 0xd4b3_5132)
    ensures Single(0xd4b3_5132, 0x00, 0xb1ce_0f35)
  {
  }

  lemma AvcAacProgram()
    ensures CleanRun(0x54fd_dad6, Program(H264), 0xb1ce_0f35)
  {
    AvcAacProgramSteps();
    assert Program(H264) == [0x00, 0x01, 0xc1, 0x00] + ([0x00, 0xe1, 0x00, 0xf0] + ([0x00, 0x1b, 0xe1, 0x00] + ([0xf0] + [0x00])));
    hide *;
    QuadRun(0x54fd_dad6, 0x00, 0x01, 0xc1, 0x00, 0xc58_9cce);
    QuadRun(0xc58_9cce, 0x00, 0xe1, 0x00, 0xf0, 0xf5c6_eb4a);
    QuadRun(0xf5c6_eb4a, 0x00, 0x1b, 0xe1, 0x00, 0x74ae_bbc7);
    SingleRun(0x74ae_bbc7, 0xf0, 0xd4b3_5132);
    SingleRun(0xd4b3_5132, 0x00, 0xb1ce_0f35);
    RunThen(0x74ae_bbc7, [0xf0], 0xd4b3_5132, [0x00], 0xb1ce_0f35);
    RunThen(0xf5c6_eb4a, [0x00, 0x1b, 0xe1, 0x00], 0x74ae_bbc7, [0xf0] + [0x00], 0xb1ce_0f35);
    RunThen(0xc58_9cce, [0x00, 0xe1, 0x00, 0xf0], 0xf5c6_eb4a, [0x00, 0x1b, 0xe1, 0x00] + ([0xf0] + [0x00]), 0xb1ce_0f35);
    RunThen(0x54fd_dad6, [0x00, 0x01, 0xc1, 0x00], 0xc58_9cce, [0x00, 0xe1, 0x00, 0xf0] + ([0x00, 0x1b, 0xe1, 0x00] + ([0xf0] + [0x00])), 0xb1ce_0f35);
  }

  lemma AvcAacRunSteps()
    ensures Quad(0xb1ce_0f35, 0x0f, 0xe1, 0x01, 0xf0, 0x9714_1ed2)
    ensures Single(0x9714_1ed2, 0x00, 0x2f44_b99b)
  {
  }

  lemma AvcAacRun()
    ensures CleanRun(0xb1ce_0f35, AacEntry(), 0x2f44_b99b)
  {
    AvcAacRunSteps();
    assert AacEntry() == [0x0f, 0xe1, 0x01, 0xf0] + [0x00];
    hide *;
    QuadRun(0xb1ce_0f35, 0x0f, 0xe1, 0x01, 0xf0, 0x9714_1ed2);
    SingleRun(0x9714_1ed2, 0x00, 0x2f44_b99b);
    RunThen(0xb1ce_0f35, [0x0f, 0xe1, 0x01, 0xf0], 0x9714_1ed2, [0x00], 0x2f44_b99b);
  }

  lemma HevcAacProgramSteps()
    ensures Quad(0x54fd_dad6, 0x00, 0x01, 0xc1, 0x00, 0xc58_9cce)
    ensures Quad(0xc58_9cce, 0x00, 0xe1, 0x00, 0xf0, 0xf5c6_eb4a)
    ensures Quad(0xf5c6_eb4a, 0x00, 0x24, 0xe1, 0x00, 0x59ff_c0fa)
    ensures Single(0x59ff_c0fa, 0xf0, 0x2c26_5c01)
    ensures Single(0x2c26_5c01, 0x00, 0x8b73_2c84)
  {
  }

  lemma HevcAacProgram()
    ensures CleanRun(0x54fd_dad6, Program(H265), 0x8b73_2c84)
  {
    HevcAacProgramSteps();
    assert Program(H265) == [0x00, 0x01, 0xc1, 0x00] + ([0x00, 0xe1, 0x00, 0xf0] + ([0x00, 0x24, 0xe1, 0x00] + ([0xf0] + [0x00])));
    hide *;
    QuadRun(0x54fd_dad6, 0x00, 0x01, 0xc1, 0x00, 0xc58_9cce);
    QuadRun(0xc58_9cce, 0x00, 0xe1, 0x00, 0xf0, 0xf5c6_eb4a);
    QuadRun(0xf5c6_eb4a, 0x00, 0x24, 0xe1, 0x00, 0x59ff_c0fa);
    SingleRun(0x59ff_c0fa, 0xf0, 0x2c26_5c01);
    SingleRun(0x2c26_5c01, 0x00, 0x8b73_2c84);
    RunThen(0x59ff_c0fa, [0xf0], 0x2c26_5c01, [0x00], 0x8b73_2c84);
    RunThen(0xf5c6_eb4a, [0x00, 0x24, 0xe1, 0x00], 0x59ff_c0fa, [0xf0] + [0x00], 0x8b73_2c84);
    RunThen(0xc58_9cce, [0x00, 0xe1, 0x00, 0xf0], 0xf5c6_eb4a, [0x00, 0x24, 0xe1, 0x00] + ([0xf0] + [0x00]), 0x8b73_2c84);
    RunThen(0x54fd_dad6, [0x00, 0x01, 0xc1, 0x00], 0xc58_9cce, [0x00, 0xe1, 0x00, 0xf0] + ([0x00, 0x24, 0xe1, 0x00] + ([0xf0] + [0x00])), 0x8b73_2c84);
  }

  lemma HevcAacRunSteps()
    ensures Quad(0x8b73_2c84, 0x0f, 0xe1, 0x01, 0xf0, 0xe618_5ddc)
    ensures Single(0xe618_5ddc, 0x00, 0xc772_b7cb)
  {
  }

  lemma HevcAacRun()
    ensures CleanRun(0x8b73_2c84, AacEntry(), 0xc772_b7cb)
  {
    HevcAacRunSteps();
    assert AacEntry() == [0x0f, 0xe1, 0x01, 0xf0] + [0x00];
    hide *;
    QuadRun(0x8b73_2c84, 0x0f, 0xe1, 0x01, 0xf0, 0xe618_5ddc);
    SingleRun(0xe618_5ddc, 0x00, 0xc772_b7cb);
    RunThen(0x8b73_2c84, [0x0f, 0xe1, 0x01, 0xf0], 0xe618_5ddc, [0x00], 0xc772_b7cb);
  }

  lemma OpusHeaderSteps()
    ensures Single(0xffff_ffff, 0x02, 0x478a_84da)
    ensures Single(0x478a_84da, 0xb0, 0x1d7b_770c)
    ensures Single(0x1d7b_770c, 0x21, 0x9a49_faf4)
  {
  }

  lemma OpusHeader()
    ensures CleanRun(0xffff_ffff, [0x02, 0xb0, 0x21], 0x9a49_faf4)
  {
    OpusHeaderSteps();
    assert [0x02, 0xb0, 0x21] == [0x02] + ([0xb0] + [0x21]);
    hide *;
    SingleRun(0xffff_ffff, 0x02, 0x478a_84da);
    SingleRun(0x478a_84da, 0xb0, 0x1d7b_770c);
    SingleRun(0x1d7b_770c, 0x21, 0x9a49_faf4);
    RunThen(0x478a_84da, [0xb0], 0x1d7b_770c, [0x21], 0x9a49_faf4);
    RunThen(0xffff_ffff, [0x02], 0x478a_84da, [0xb0] + [0x21], 0x9a49_faf4);
  }

  lemma AvcOpusProgramSteps()
    ensures Quad(0x9a49_faf4, 0x00, 0x01, 0xc1, 0x00, 0x3e01_dff4)
    ensures Quad(0x3e01_dff4, 0x00, 0xe1, 0x00, 0xf0, 0xf888_0117)
    ensures Quad(0xf888_0117, 0x00, 0x1b, 0xe1, 0x00, 0xd168_29ee)
    ensures Single(0xd168_29ee, 0xf0, 0xf4cb_4557)
    ensures Single(0xf4cb_4557, 0x00, 0x51f9_dcd5)
  {
  }

  lemma AvcOpusProgram()
    ensures CleanRun(0x9a49_faf4, Program(H264), 0x51f9_dcd5)
  {
    AvcOpusProgramSteps();
    assert Program(H264) == [0x00, 0x01, 0xc1, 0x00] + ([0x00, 0xe1, 0x00, 0xf0] + ([0x00, 0x1b, 0xe1, 0x00] + ([0xf0] + [0x00])));
    hide *;
    QuadRun(0x9a49_faf4, 0x00, 0x01, 0xc1, 0x00, 0x3e01_dff4);
    QuadRun(0x3e01_dff4, 0x00, 0xe1, 0x00, 0xf0, 0xf888_0117);
    QuadRun(0xf888_0117, 0x00, 0x1b, 0xe1, 0x00, 0xd168_29ee);
    SingleRun(0xd168_29ee, 0xf0, 0xf4cb_4557);
    SingleRun(0xf4cb_4557, 0x00, 0x51f9_dcd5);
    RunThen(0xd168_29ee, [0xf0], 0xf4cb_4557, [0x00], 0x51f9_dcd5);
    RunThen(0xf888_0117, [0x00, 0x1b, 0xe1, 0x00], 0xd168_29ee, [0xf0] + [0x00], 0x51f9_dcd5);
    RunThen(0x3e01_dff4, [0x00, 0xe1, 0x00, 0xf0], 0xf888_0117, [0x00, 0x1b, 0xe1, 0x00] + ([0xf0] + [0x00]), 0x51f9_dcd5);
    RunThen(0x9a49_faf4, [0x00, 0x01, 0xc1, 0x00], 0x3e01_dff4, [0x00, 0xe1, 0x00, 0xf0] + ([0x00, 0x1b, 0xe1, 0x00] + ([0xf0] + [0x00])), 0x51f9_dcd5);
  }

  lemma AvcOpusRunSteps()
    ensures Quad(0x51f9_dcd5, 0x06, 0xe1, 0x01, 0xf0, 0x68c2_bebe)
    ensures Quad(0x68c2_bebe, 0x0a, 0x05, 0x04, 0x4f, 0xd2b_93e6)
    ensures Quad(0xd2b_93e6, 0x70, 0x75, 0x73, 0x7f, 0x1096_9a46)
    ensures Single(0x1096_9a46, 0x02, 0xd309_a61e)
    ensures Single(0xd309_a61e, 0x80, 0x7c72_93de)
  {
  }

  lemma AvcOpusRun()
    ensures CleanRun(0x51f9_dcd5, OpusEntry(), 0x7c72_93de)
  {
    AvcOpusRunSteps();
    assert OpusEntry() == [0x06, 0xe1, 0x01, 0xf0] + ([0x0a, 0x05, 0x04, 0x4f] + ([0x70, 0x75, 0x73, 0x7f] + ([0x02] + [0x80])));
    hide *;
    QuadRun(0x51f9_dcd5, 0x06, 0xe1, 0x01, 0xf0, 0x68c2_bebe);
    QuadRun(0x68c2_bebe, 0x0a, 0x05, 0x04, 0x4f, 0xd2b_93e6);
    QuadRun(0xd2b_93e6, 0x70, 0x75, 0x73, 0x7f, 0x1096_9a46);
    SingleRun(0x1096_9a46, 0x02, 0xd309_a61e);
    SingleRun(0xd309_a61e, 0x80, 0x7c72_93de);
    RunThen(0x1096_9a46, [0x02], 0xd309_a61e, [0x80], 0x7c72_93de);
    RunThen(0xd2b_93e6, [0x70, 0x75, 0x73, 0x7f], 0x1096_9a46, [0x02] + [0x80], 0x7c72_93de);
    RunThen(0x68c2_bebe, [0x0a, 0x05, 0x04, 0x4f], 0xd2b_93e6, [0x70, 0x75, 0x73, 0x7f] + ([0x02] + [0x80]), 0x7c72_93de);
    RunThen(0x51f9_dcd5, [0x06, 0xe1, 0x01, 0xf0], 0x68c2_bebe, [0x0a, 0x05, 0x04, 0x4f] + ([0x70, 0x75, 0x73, 0x7f] + ([0x02] + [0x80])), 0x7c72_93de);
  }

  lemma HevcOpusProgramSteps()
    ensures Quad(0x9a49_faf4, 0x00, 0x01, 0xc1, 0x00, 0x3e01_dff4)
    ensures Quad(0x3e01_dff4, 0x00, 0xe1, 0x00, 0xf0, 0xf888_0117)
    ensures Quad(0xf888_0117, 0x00, 0x24, 0xe1, 0x00, 0xfc39_52d3)
    ensures Single(0xfc39_52d3, 0xf0, 0xc5e_4864)
    ensures Single(0xc5e_4864, 0x00, 0x6b44_ff64)
  {
  }

  lemma HevcOpusProgram()
    ensures CleanRun(0x9a49_faf4, Program(H265), 0x6b44_ff64)
  {
    HevcOpusProgramSteps();
    assert Program(H265) == [0x00, 0x01, 0xc1, 0x00] + ([0x00, 0xe1, 0x00, 0xf0] + ([0x00, 0x24, 0xe1, 0x00] + ([0xf0] + [0x00])));
    hide *;
    QuadRun(0x9a49_faf4, 0x00, 0x01, 0xc1, 0x00, 0x3e01_dff4);
    QuadRun(0x3e01_dff4, 0x00, 0xe1, 0x00, 0xf0, 0xf888_0117);
    QuadRun(0xf888_0117, 0x00, 0x24, 0xe1, 0x00, 0xfc39_52d3);
    SingleRun(0xfc39_52d3, 0xf0, 0xc5e_4864);
    SingleRun(0xc5e_4864, 0x00, 0x6b44_ff64);
    RunThen(0xfc39_52d3, [0xf0], 0xc5e_4864, [0x00], 0x6b44_ff64);
    RunThen(0xf888_0117, [0x00, 0x24, 0xe1, 0x00], 0xfc39_52d3, [0xf0] + [0x00], 0x6b44_ff64);
    RunThen(0x3e01_dff4, [0x00, 0xe1, 0x00, 0xf0], 0xf888_0117, [0x00, 0x24, 0xe1, 0x00] + ([0xf0] + [0x00]), 0x6b44_ff64);
    RunThen(0x9a49_faf4, [0x00, 0x01, 0xc1, 0x00], 0x3e01_dff4, [0x00, 0xe1, 0x00, 0xf0] + ([0x00, 0x24, 0xe1, 0x00] + ([0xf0] + [0x00])), 0x6b44_ff64);
  }

  lemma HevcOpusRunSteps()
    ensures Quad(0x6b44_ff64, 0x06, 0xe1, 0x01, 0xf0, 0x19ce_fdb0)
    ensures Quad(0x19ce_fdb0, 0x0a, 0x05, 0x04, 0x4f, 0x1b2c_b7e7)
    ensures Quad(0x1b2c_b7e7, 0x70, 0x75, 0x73, 0x7f, 0x4320_9e94)
    ensures Single(0x4320_9e94, 0x02, 0x10d9_f9c0)
    ensures Single(0x10d9_f9c0, 0x80, 0xfce4_fb9e)
  {
  }

  lemma HevcOpusRun()
    ensures CleanRun(0x6b44_ff64, OpusEntry(), 0xfce4_fb9e)
  {
    HevcOpusRunSteps();
    assert OpusEntry() == [0x06, 0xe1, 0x01, 0xf0] + ([0x0a, 0x05, 0x04, 0x4f] + ([0x70, 0x75, 0x73, 0x7f] + ([0x02] + [0x80])));
    hide *;
    QuadRun(0x6b44_ff64, 0x06, 0xe1, 0x01, 0xf0, 0x19ce_fdb0);
    QuadRun(0x19ce_fdb0, 0x0a, 0x05, 0x04, 0x4f, 0x1b2c_b7e7);
    QuadRun(0x1b2c_b7e7, 0x70, 0x75, 0x73, 0x7f, 0x4320_9e94);
    SingleRun(0x4320_9e94, 0x02, 0x10d9_f9c0);
    SingleRun(0x10d9_f9c0, 0x80, 0xfce4_fb9e);
    RunThen(0x4320_9e94, [0x02], 0x10d9_f9c0, [0x80], 0xfce4_fb9e);
    RunThen(0x1b2c_b7e7, [0x70, 0x75, 0x73, 0x7f], 0x4320_9e94, [0x02] + [0x80], 0xfce4_fb9e);
    RunThen(0x19ce_fdb0, [0x0a, 0x05, 0x04, 0x4f], 0x1b2c_b7e7, [0x70, 0x75, 0x73, 0x7f] + ([0x02] + [0x80]), 0xfce4_fb9e);
    RunThen(0x6b44_ff64, [0x06, 0xe1, 0x01, 0xf0], 0x19ce_fdb0, [0x0a, 0x05, 0x04, 0x4f] + ([0x70, 0x75, 0x73, 0x7f] + ([0x02] + [0x80])), 0xfce4_fb9e);
  }

  // ---- which tables check

  lemma CleanChecks(section: Bytes, end: bv32)
    requires CleanRun(START, section, end)
    ensures Checks(WithCrc(section))
  {
    ChecksByFaults(section);
    hide Checks, TableRun;
  }

  /** The program association table checks. */
  lemma PatChecks()
    ensures Checks(WithCrc(PatSection()))
  {
    hide CleanRun, Checks, PatSection;
    PatRun();
    CleanChecks(PatSection(), 0x2ab1_04b2);
  }

  lemma LengthBytes()
    ensures 18 as bv8 == 0x12 && 23 as bv8 == 0x17 && 33 as bv8 == 0x21
  {
  }

  lemma PmtIs(video: bv8, audio: bv8, ch: bv8, length: bv8)
    requires length == (|Program(video)| + |AudioEntry(audio, ch)| + 4) as bv8
    ensures PmtSection(video, audio, ch) == [0x02, 0xb0, length] + (Program(video) + AudioEntry(audio, ch))
  {
    hide Program, AudioEntry;
  }

  lemma BareParts(video: bv8, ch: bv8)
    ensures PmtSection(video, NO_AUDIO, ch) == [0x02, 0xb0, 0x12] + Program(video)
  {
    LengthBytes();
    assert AudioEntry(NO_AUDIO, ch) == [];
    hide Program, AudioEntry, PmtSection;
    PmtIs(video, NO_AUDIO, ch, 0x12);
    assert Program(video) + [] == Program(video);
  }

  lemma AacParts(video: bv8, ch: bv8)
    ensures PmtSection(video, AAC, ch) == [0x02, 0xb0, 0x17] + (Program(video) + AacEntry())
  {
    LengthBytes();
    assert AudioEntry(AAC, ch) == AacEntry();
    hide Program, AudioEntry, PmtSection;
    PmtIs(video, AAC, ch, 0x17);
  }

  lemma OpusParts(video: bv8, ch: bv8)
    ensures PmtSection(video, OPUS, ch) == [0x02, 0xb0, 0x21] + (Program(video) + OpusEntry()) + [ch]
  {
    LengthBytes();
    assert AudioEntry(OPUS, ch) == OpusEntry() + [ch];
    hide Program, AudioEntry, PmtSection, OpusEntry;
    PmtIs(video, OPUS, ch, 0x21);
    Regroup([0x02, 0xb0, 0x21], Program(video), OpusEntry(), [ch]);
  }

  lemma Regroup(a: Bytes, b: Bytes, c: Bytes, d: Bytes)
    ensures a + (b + (c + d)) == a + (b + c) + d
  {
  }

  lemma NoAudioChecks(video: bv8, ch: bv8)
    requires video == H264 || video == H265
    ensures Checks(WithCrc(PmtSection(video, NO_AUDIO, ch)))
  {
    BareParts(video, ch);
    hide CleanRun, Checks, Program, PmtSection, WithCrc;
    var next: bv32 := if video == H264 then 0x15bd_4d56 else 0x2f00_6ee7;
    BareHeader();
    AvcBareProgram();
    HevcBareProgram();
    RunThen(0xffff_ffff, [0x02, 0xb0, 0x12], 0x4338_b1bd, Program(video), next);
    CleanChecks(PmtSection(video, NO_AUDIO, ch), next);
  }

  lemma AacChecks(video: bv8, ch: bv8)
    requires video == H264 || video == H265
    ensures Checks(WithCrc(PmtSection(video, AAC, ch)))
  {
    AacParts(video, ch);
    hide CleanRun, Checks, Program, PmtSection, WithCrc, AacEntry;
    AacHeader();
    if video == H264 {
      AvcAacProgram();
      AvcAacRun();
      RunThen(0x54fd_dad6, Program(video), 0xb1ce_0f35, AacEntry(), 0x2f44_b99b);
      RunThen(0xffff_ffff, [0x02, 0xb0, 0x17], 0x54fd_dad6, Program(video) + AacEntry(), 0x2f44_b99b);
      CleanChecks(PmtSection(video, AAC, ch), 0x2f44_b99b);
    } else {
      HevcAacProgram();
      HevcAacRun();
      RunThen(0x54fd_dad6, Program(video), 0x8b73_2c84, AacEntry(), 0xc772_b7cb);
      RunThen(0xffff_ffff, [0x02, 0xb0, 0x17], 0x54fd_dad6, Program(video) + AacEntry(), 0xc772_b7cb);
      CleanChecks(PmtSection(video, AAC, ch), 0xc772_b7cb);
    }
  }

  // The channel codes that send the last byte of the section to a faulty entry
  predicate FaultyChannels(video: bv8, ch: bv8) {
    if video == H264 then ch == 103 || 96 <= ch <= 99 else ch == 231 || 224 <= ch <= 227
  }

  // The remainder in front of the channel code
  function OpusRemainder(video: bv8): bv32 {
    if video == H264 then 0x7c72_93de else 0xfce4_fb9e
  }

  lemma ChannelFault(video: bv8, ch: bv8)
    requires video == H264 || video == H265
    ensures Faulty(Index(OpusRemainder(video), Wide(ch))) <==> FaultyChannels(video, ch)
  {
  }

  lemma OneByteFaults(c: bv32, b: bv8)
    ensures Faults(c, [b]) == if Faulty(Index(c, Wide(b))) then 1 else 0
  {
    hide Turn, Faulty, Index, Wide;
    assert [b][1..] == [];
  }

  lemma OpusRun(video: bv8)
    requires video == H264 || video == H265
    ensures CleanRun(START, [0x02, 0xb0, 0x21] + (Program(video) + OpusEntry()), OpusRemainder(video))
  {
    hide CleanRun, Program, OpusEntry;
    OpusHeader();
    if video == H264 {
      AvcOpusProgram();
      AvcOpusRun();
      RunThen(0x9a49_faf4, Program(video), 0x51f9_dcd5, OpusEntry(), 0x7c72_93de);
      RunThen(0xffff_ffff, [0x02, 0xb0, 0x21], 0x9a49_faf4, Program(video) + OpusEntry(), 0x7c72_93de);
    } else {
      HevcOpusProgram();
      HevcOpusRun();
      RunThen(0x9a49_faf4, Program(video), 0x6b44_ff64, OpusEntry(), 0xfce4_fb9e);
      RunThen(0xffff_ffff, [0x02, 0xb0, 0x21], 0x9a49_faf4, Program(video) + OpusEntry(), 0xfce4_fb9e);
    }
  }

  lemma OpusFaults(video: bv8, ch: bv8)
    requires video == H264 || video == H265
    ensures Faults(START, PmtSection(video, OPUS, ch)) == if FaultyChannels(video, ch) then 1 else 0
  {
    var front := [0x02, 0xb0, 0x21] + (Program(video) + OpusEntry());
    OpusParts(video, ch);
    OpusRun(video);
    ChannelFault(video, ch);
    hide PmtSection, FaultyChannels, OpusRemainder, Faults, TableRun, Faulty, Index, Program, OpusEntry;
    FaultsConcat(START, front, [ch]);
    OneByteFaults(OpusRemainder(video), ch);
  }

  /** The program map table checks for every stream type the muxer knows, with
      one exception: an Opus stream whose channel code is one of five values per
      video type. */
  lemma PmtChecks(video: bv8, audio: bv8, ch: bv8)
    requires video == H264 || video == H265
    requires audio == NO_AUDIO || audio == AAC || audio == OPUS
    ensures Checks(WithCrc(PmtSection(video, audio, ch))) <==> !(audio == OPUS && FaultyChannels(video, ch))
  {
    hide Checks, WithCrc, PmtSection, FaultyChannels, Faults;
    if audio == NO_AUDIO {
      NoAudioChecks(video, ch);
    } else if audio == AAC {
      AacChecks(video, ch);
    } else {
      OpusFaults(video, ch);
      ChecksByFaults(PmtSection(video, OPUS, ch));
    }
  }
}
