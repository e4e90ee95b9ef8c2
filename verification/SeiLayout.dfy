/** The bytes of a time stamp message as MISB ST 0604 lays them out: the identifier's
    characters, the time with its most significant byte first, and the framing. */
module SeiLayout {
  import opened Basics
  import opened SeiTimestamp

  const IDENTIFIER: string := "MISPmicrosectime"

  function Join(acc: bv64, b: bv8): bv64 {
    (acc << 8) | b as bv64
  }

  // Eight bytes read from the most significant on
  function BigEndian(a: bv8, b: bv8, c: bv8, d: bv8, e: bv8, f: bv8, g: bv8, h: bv8): bv64 {
    Join(Join(Join(Join(Join(Join(Join(Join(0, a), b), c), d), e), f), g), h)
  }

  function Code(i: nat): nat
    requires i < 16
  {
    match i
    case 0 => 0x4d case 1 => 0x49 case 2 => 0x53 case 3 => 0x50
    case 4 => 0x6d case 5 => 0x69 case 6 => 0x63 case 7 => 0x72
    case 8 => 0x6f case 9 => 0x73 case 10 => 0x65 case 11 => 0x63
    case 12 => 0x74 case 13 => 0x69 case 14 => 0x6d case _ => 0x65
  }

  lemma LetterIs(i: nat)
    requires i < 16
    ensures |IDENTIFIER| == 16 && IDENTIFIER[i] as int == Code(i)
  {
    assert IDENTIFIER[..8] == "MISPmicr" && IDENTIFIER[8..] == "osectime";
    assert i < 8 ==> IDENTIFIER[i] == "MISPmicr"[i];
    assert i >= 8 ==> IDENTIFIER[i] == "osectime"[i - 8];
  }

  lemma ByteIs(i: nat)
    requires i < 16
    ensures Uuid(H264)[i] as nat == Code(i)
  {
  }

  /** The H.264 identifier of section 7.1 is these sixteen characters. */
  lemma IdentifierIsAscii(i: nat)
    requires i < 16
    ensures |IDENTIFIER| == 16 && Uuid(H264)[i] as int == IDENTIFIER[i] as int
  {
    hide *;
    LetterIs(i);
    ByteIs(i);
  }

  lemma TimeBytesJoin(t: bv64)
    ensures BigEndian(TimeByte(t, 0), TimeByte(t, 1), TimeByte(t, 2), TimeByte(t, 3),
                      TimeByte(t, 4), TimeByte(t, 5), TimeByte(t, 6), TimeByte(t, 7)) == t
  {
  }

  /** The status with its five reserved bits set, and the time in four pairs of bytes,
      the most significant first, with a guard between the pairs. */
  lemma StampIsLaidOut(x: Stamp)
    ensures var b := StampBytes(x);
            && b[0] == x.status | 0x1f && b[3] == 0xff && b[6] == 0xff && b[9] == 0xff
            && BigEndian(b[1], b[2], b[4], b[5], b[7], b[8], b[10], b[11]) == x.utc
  {
    hide TimeByte, BigEndian;
    TimeBytesJoin(x.utc);
  }

  /** An AVCC prefix is the length of the unit in four bytes, the most significant first,
      and an Annex B prefix a start code of four bytes. */
  lemma FramingIs(codec: int, x: Stamp)
    requires Known(codec)
    ensures var p := Prefix(codec, PREFIX_AVCC);
            |p| == 4 && p[0] == p[1] == p[2] == 0 && p[3] as nat == |BareNal(codec, x)|
    ensures Prefix(codec, PREFIX_ANNEXB) == [0, 0, 0, 1] && Prefix(codec, PREFIX_NONE) == []
  {
    hide BareNal;
  }

  /** The units that are read are those of type 6 in H.264 and of type 39 in H.265, by
      sections 7.3.1 of ITU-T H.264 and 7.3.1.2 of ITU-T H.265; all others answer ENOENT. */
  lemma UnitsRead(nal: Bytes, codec: int)
    requires Known(codec)
    ensures IsSei(nal, codec) <==>
              if codec == H264 then |nal| >= 1 && nal[0] as nat % 32 == 6
              else |nal| >= 2 && nal[0] as nat / 2 % 64 == 39
    ensures !IsSei(nal, codec) ==> Parse(nal, codec) == Err(ENOENT)
  {
    hide Walk;
    if nal != [] {
      LowFive(nal[0]);
      MidSix(nal[0]);
    }
  }
}
