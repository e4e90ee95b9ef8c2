/** The muxer object: the public calls, each proved to send what TsMux says and
    to move its state as TsMux says. */
module TsApi {
  import opened Basics
  import opened TsCrc
  import opened TsPacket
  import opened TsPes
  import opened TsWrite
  import opened TsTables
  import opened TsMux

  // write_pts
  method WritePts(prefix: bv8, pts: bv64) returns (p: Bytes)
    ensures p == PtsBytes(prefix, pts)
  {
    p := [(prefix << 4) | ((((pts >> 30) & 0x07) as bv8) << 1) | 1,
          ((pts >> 22) & 0xff) as bv8,
          (((pts >> 15) & 0x7f) as bv8 << 1) | 1,
          ((pts >> 7) & 0xff) as bv8,
          ((pts & 0x7f) as bv8 << 1) | 1];
  }

  method BuildProgram(video: bv8) returns (rest: Bytes)
    ensures rest == Program(video)
  {
    rest := [0x00, 0x01, 0xc1, 0x00, 0x00, 0xe1, 0x00, 0xf0, 0x00];
    rest := rest + [video, 0xe1, 0x00, 0xf0, 0x00];
  }

  // The program map section, its length filled in once the rest is there
  method BuildPmt(video: bv8, audio: bv8, channels: bv8) returns (s: Bytes)
    ensures s == PmtSection(video, audio, channels)
  {
    hide *;
    var rest := BuildProgram(video);
    if audio != NO_AUDIO {
      rest := rest + [audio, 0xe1, 0x01];
      if audio == OPUS {
        rest := rest + [0xf0, 0x0a, 0x05, 0x04, 0x4f, 0x70, 0x75, 0x73, 0x7f, 0x02, 0x80, channels];
      } else {
        rest := rest + [0xf0, 0x00];
      }
    }
    PmtRest(video, audio, channels, rest);
    s := [0x02, 0xb0, (|rest| + 4) as bv8] + rest;
    PmtIs(video, audio, channels);
  }

  lemma PmtIs(video: bv8, audio: bv8, channels: bv8)
    requires |PmtBody(video, audio, channels)| <= 29
    ensures var rest := PmtBody(video, audio, channels);
            PmtSection(video, audio, channels) == [0x02, 0xb0, (|rest| + 4) as bv8] + rest
  {
    hide PmtBody;
  }

  lemma PmtRest(video: bv8, audio: bv8, channels: bv8, rest: Bytes)
    requires if audio == NO_AUDIO then rest == Program(video)
             else if audio == OPUS then
               rest == Program(video) + [audio, 0xe1, 0x01]
                       + [0xf0, 0x0a, 0x05, 0x04, 0x4f, 0x70, 0x75, 0x73, 0x7f, 0x02, 0x80, channels]
             else rest == Program(video) + [audio, 0xe1, 0x01] + [0xf0, 0x00]
    ensures rest == PmtBody(video, audio, channels) && |rest| <= 29
  {
    hide Program;
    if audio == NO_AUDIO {
      assert Program(video) + [] == Program(video);
    }
  }

  // One table packet in place: FF bytes, header, pointer field, section and CRC
  method WriteTable(buf: array<bv8>, at: nat, pid: bv16, cc: bv8, section: Bytes)
    requires at + PACKET <= buf.Length && |section| <= 32
    modifies buf
    ensures buf[at..at + PACKET] == TablePacket(pid, cc, section)
    ensures Outside(buf, at, at + PACKET)
  {
    hide Head, TableCrc;
    SetMem(buf, at, PACKET, 0xff);
    WriteHead(buf, at, pid, true, 0x10, cc);
    var crc := MpegCrc32(section);
    CopyMem(buf, at + 4, [0x00] + section + CrcBytes(crc));
    ghost var p := buf[at..at + PACKET];
    ghost var n := 9 + |section|;
    assert p[..4] == buf[at..at + 4];
    SubSlice(buf[..], at, PACKET, 4, n);
    assert buf[at + 4..at + n] == [0x00] + section + CrcBytes(crc);
    assert p[n..] == Filler(179 - |section|);
    TableFrom(p, pid, cc, section);
  }

  lemma TableFrom(p: Bytes, pid: bv16, cc: bv8, section: Bytes)
    requires |p| == PACKET && |section| <= 32
    requires p[..4] == Head(pid, true, 0x10, cc)
    requires p[4..9 + |section|] == [0x00] + section + CrcBytes(TableCrc(section))
    requires p[9 + |section|..] == Filler(179 - |section|)
    ensures p == TablePacket(pid, cc, section)
  {
    hide Head, TableCrc, CrcBytes;
    var n := 9 + |section|;
    assert p == p[..4] + p[4..n] + p[n..];
    Regroup(p[..4], [0x00], section, CrcBytes(TableCrc(section)), p[n..]);
  }

  lemma Regroup(a: Bytes, b: Bytes, c: Bytes, d: Bytes, e: Bytes)
    ensures a + (b + c + d) + e == a + b + (c + d) + e
  {
  }

  class Muxer {
    var ccPat: bv8
    var ccPmt: bv8
    var ccVideo: bv8
    var ccAudio: bv8
    var patCounter: nat
    var lastPcr: Ticks64
    var video: bv8
    var audio: bv8
    var channels: bv8

    ghost function Abs(): Mux
      reads this
    {
      Mux(ccPat, ccPmt, ccVideo, ccAudio, patCounter, lastPcr, video, audio, channels)
    }

    // rss_ts_init
    constructor (video: bv8, audio: bv8, channels: bv8)
      ensures Abs() == Start(video, audio, channels)
    {
      ccPat, ccPmt, ccVideo, ccAudio, patCounter, lastPcr := 0, 0, 0, 0, 0, 0;
      this.video, this.audio := video, audio;
      this.channels := if channels == 0 then 1 else channels;
    }

    // rss_ts_write_pat_pmt
    method WritePatPmt(buf: array<bv8>) returns (written: nat)
      modifies this, buf
      ensures var c := Tables(buf.Length / PACKET);
              && Abs() == Next(old(Abs()), c)
              && written <= buf.Length && buf[..written] == Flat(Sent(old(Abs()), c))
      ensures Outside(buf, 0, written)
    {
      hide TablePacket, NextCounter, PmtSection, PatSection;
      if buf.Length < PACKET * 2 {
        NoTables(buf.Length);
        return 0;
      }
      assert buf.Length / PACKET >= 2;
      WriteTable(buf, 0, PID_PAT, ccPat, PatSection());
      ghost var pat := buf[0..PACKET];
      ccPat := NextCounter(ccPat);
      var section := BuildPmt(video, audio, channels);
      WriteTable(buf, PACKET, PID_PMT, ccPmt, section);
      ccPmt := NextCounter(ccPmt);
      patCounter := 0;
      written := 2 * PACKET;
      FlatTwo(pat, buf[PACKET..2 * PACKET]);
      assert buf[0..PACKET] == pat;
      assert buf[..written] == buf[0..PACKET] + buf[PACKET..2 * PACKET];
    }

    // The clock of the next video write
    method GuardedClock(dts: Ticks64) returns (pcr: Ticks64)
      ensures pcr == NextPcr(Abs(), dts)
    {
      pcr := if dts > 3000 then dts - 3000 else 0;
      if pcr <= lastPcr && patCounter > 0 {
        pcr := (lastPcr + 1) % 0x1_0000_0000_0000_0000;
      }
    }

    // rss_ts_write_video
    method WriteVideo(buf: array<bv8>, data: Bytes, pts: Ticks64, dts: Ticks64, idr: bool) returns (written: nat)
      modifies this, buf
      ensures var c := Video(buf.Length / PACKET, data, pts, dts, idr);
              && Abs() == Next(old(Abs()), c)
              && written <= buf.Length && buf[..written] == Flat(Sent(old(Abs()), c))
      ensures Outside(buf, 0, written)
    {
      hide Sent, Next, Packets, Flat, Counter, VideoHeader, NextPcr, Word;
      ghost var m, c := Abs(), Video(buf.Length / PACKET, data, pts, dts, idr);
      VideoIs(m, c);
      FlatNone();
      if |data| == 0 {
        return 0;
      }
      var hdr := VideoPesHeader(Word(pts), Word(dts));
      var pcr := GuardedClock(dts);
      lastPcr := pcr;
      written, ccVideo := WritePesPackets(buf, PID_VIDEO, ccVideo, hdr, data, Extra(Some(Word(pcr)), idr));
      patCounter := (patCounter + 1) % 0x1_0000_0000;
    }

    // rss_ts_write_audio
    method WriteAudio(buf: array<bv8>, data: Bytes, pts: Ticks64) returns (written: nat)
      modifies this, buf
      ensures var c := Audio(buf.Length / PACKET, data, pts);
              && Abs() == Next(old(Abs()), c)
              && written <= buf.Length && buf[..written] == Flat(Sent(old(Abs()), c))
      ensures Outside(buf, 0, written)
    {
      hide Packets, Flat, Counter, AudioHeader, Word;
      if |data| == 0 || audio == NO_AUDIO {
        FlatNone();
        return 0;
      }
      var hdr := AudioPesHeader(audio, |data|, Word(pts));
      written, ccAudio := WritePesPackets(buf, PID_AUDIO, ccAudio, hdr, data, NOTHING);
    }
  }

  lemma VideoIs(m: Mux, c: Call)
    requires c.Video?
    ensures c.data == [] ==> Sent(m, c) == [] && Next(m, c) == m
    ensures c.data != [] ==>
              && Sent(m, c) == Packets(PID_VIDEO, true, m.ccVideo, Extra(Some(Word(NextPcr(m, c.dts))), c.idr),
                                       VideoHeader(Word(c.pts), Word(c.dts)) + c.data, c.n)
              && Next(m, c) == m.(ccVideo := Counter(m.ccVideo, |Sent(m, c)|), lastPcr := NextPcr(m, c.dts),
                                  patCounter := (m.patCounter + 1) % 0x1_0000_0000)
  {
    hide Packets, Counter, VideoHeader, NextPcr, Word;
  }

  lemma NoTables(length: nat)
    requires length < PACKET * 2
    ensures length / PACKET < 2 && Flat([]) == []
  {
  }

  lemma FlatNone()
    ensures Flat([]) == []
  {
  }

  lemma FlatTwo(a: Bytes, b: Bytes)
    ensures Flat([a, b]) == a + b
  {
    assert [a, b][1..] == [b] && [b][1..] == [];
    assert Flat([b]) == b + [] == b;
  }

  method VideoPesHeader(pts: bv64, dts: bv64) returns (h: Bytes)
    ensures h == VideoHeader(pts, dts)
  {
    hide PtsBytes;
    h := [0x00, 0x00, 0x01, 0xe0, 0x00, 0x00, 0x84];
    if dts != pts {
      var p := WritePts(0x03, pts);
      var d := WritePts(0x01, dts);
      h := h + ([0xc0, 0x0a] + p + d);
    } else {
      var p := WritePts(0x02, pts);
      h := h + ([0x80, 0x05] + p);
    }
  }

  method AudioPesHeader(audio: bv8, len: nat, pts: bv64) returns (h: Bytes)
    ensures h == AudioHeader(audio, len, pts)
  {
    hide PtsBytes;
    var stream: bv8 := if audio == AAC then 0xc0 else 0xbd;
    var size := 3 + 5 + len;
    var length: Bytes := [0x00, 0x00];
    if size <= 0xffff {
      length := [(size / 256) as bv8, (size % 256) as bv8];
    }
    var p := WritePts(0x02, pts);
    h := [0x00, 0x00, 0x01, stream] + length + [0x84, 0x80, 0x05] + p;
  }
}
