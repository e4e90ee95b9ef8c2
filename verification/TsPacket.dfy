/** Transport stream packets: what the packetiser makes of a PES packet, and a
    demultiplexer per sections 2.4.3.2 to 2.4.3.5 of ISO/IEC 13818-1 that takes
    it apart again. */
module TsPacket {
  import opened Basics

  const PACKET: nat := 188

  // ---- time stamps in the bytes

  // write_pts: a four-bit prefix and 33 bits between marker bits
  function PtsBytes(prefix: bv8, pts: bv64): (b: Bytes)
    ensures |b| == 5
  {
    [(prefix << 4) | ((((pts >> 30) & 0x07) as bv8) << 1) | 1,
     ((pts >> 22) & 0xff) as bv8,
     (((pts >> 15) & 0x7f) as bv8 << 1) | 1,
     ((pts >> 7) & 0xff) as bv8,
     ((pts & 0x7f) as bv8 << 1) | 1]
  }

  // Section 2.4.3.7 read back
  function PtsOf(b: Bytes): bv64
    requires |b| == 5
  {
    (((b[0] >> 1) & 0x07) as bv64 << 30) | (b[1] as bv64 << 22) | (((b[2] >> 1) & 0x7f) as bv64 << 15)
    | (b[3] as bv64 << 7) | ((b[4] >> 1) & 0x7f) as bv64
  }

  lemma PtsBack(prefix: bv8, pts: bv64)
    ensures PtsOf(PtsBytes(prefix, pts)) == pts & 0x1_ffff_ffff
    ensures prefix < 16 ==> PtsBytes(prefix, pts)[0] >> 4 == prefix
  {
  }

  // write_pcr: 33 bits, six reserved ones and nine bits of extension, all zero
  function PcrBytes(pcr: bv64): (b: Bytes)
    ensures |b| == 6
  {
    [((pcr >> 25) & 0xff) as bv8, ((pcr >> 17) & 0xff) as bv8, ((pcr >> 9) & 0xff) as bv8,
     ((pcr >> 1) & 0xff) as bv8, (((pcr & 1) as bv8) << 7) | 0x7e, 0]
  }

  // Section 2.4.3.5 read back
  function PcrOf(b: Bytes): bv64
    requires |b| == 6
  {
    (b[0] as bv64 << 25) | (b[1] as bv64 << 17) | (b[2] as bv64 << 9) | (b[3] as bv64 << 1) | (b[4] >> 7) as bv64
  }

  lemma PcrBack(pcr: bv64)
    ensures PcrOf(PcrBytes(pcr)) == pcr & 0x1_ffff_ffff
  {
  }

  // ---- one packet

  function Head(pid: bv16, first: bool, afc: bv8, cc: bv8): (h: Bytes)
    ensures |h| == 4
  {
    [0x47, (if first then 0x40 else 0) | ((pid >> 8) & 0x1f) as bv8, (pid & 0xff) as bv8, afc | (cc & 0x0f)]
  }

  // What the first packet carries besides payload
  datatype Extra = Extra(pcr: Option<bv64>, random: bool)

  const NOTHING := Extra(None, false)

  // The flags byte and the clock reference, when there is either
  function Fields(x: Extra): (b: Bytes)
    ensures |b| <= 7
  {
    if x == NOTHING then []
    else
      [(if x.pcr.Some? then 0x10 else 0) | (if x.random then 0x40 else 0)]
      + (if x.pcr.Some? then PcrBytes(x.pcr.value) else [])
  }

  // Room for payload next to the fields
  function Room(x: Extra): (r: nat)
    ensures 176 <= r <= 184
  {
    if x == NOTHING then 184 else 183 - |Fields(x)|
  }

  function Filler(n: nat): (b: Bytes)
    ensures |b| == n
  {
    seq(n, _ => 0xff)
  }

  // The adaptation field that leaves `take` bytes of payload
  function Adaptation(x: Extra, take: nat): (a: Bytes)
    requires 0 < take <= Room(x)
    ensures |a| == 184 - take
  {
    var stuff := Room(x) - take;
    if x != NOTHING then [(|Fields(x)| + stuff) as bv8] + Fields(x) + Filler(stuff)
    else if stuff == 0 then []
    else if stuff == 1 then [0]
    else [(stuff - 1) as bv8, 0] + Filler(stuff - 2)
  }

  function Packet(pid: bv16, first: bool, cc: bv8, x: Extra, chunk: Bytes): (p: Bytes)
    requires 0 < |chunk| <= Room(x)
    ensures |p| == PACKET
  {
    var a := Adaptation(x, |chunk|);
    Head(pid, first, if a == [] then 0x10 else 0x30, cc) + a + chunk
  }

  // ---- the demultiplexer

  predicate HasAdaptation(p: Bytes)
    requires |p| == PACKET
  {
    p[3] & 0x20 != 0
  }

  // Where the payload begins; past the end for a field that is too long
  function PayloadStart(p: Bytes): nat
    requires |p| == PACKET
  {
    if HasAdaptation(p) then 5 + p[4] as nat else 4
  }

  function PayloadOf(p: Bytes): Bytes
    requires |p| == PACKET
  {
    if p[3] & 0x10 != 0 && PayloadStart(p) <= PACKET then p[PayloadStart(p)..] else []
  }

  function PidOf(p: Bytes): bv16
    requires |p| == PACKET
  {
    ((p[1] & 0x1f) as bv16 << 8) | p[2] as bv16
  }

  predicate StartsUnit(p: Bytes)
    requires |p| == PACKET
  {
    p[1] & 0x40 != 0
  }

  function CounterOf(p: Bytes): bv8
    requires |p| == PACKET
  {
    p[3] & 0x0f
  }

  function ClockOf(p: Bytes): Option<bv64>
    requires |p| == PACKET
  {
    if HasAdaptation(p) && p[4] >= 7 && p[5] & 0x10 != 0 then Some(PcrOf(p[6..12])) else None
  }

  predicate RandomAccess(p: Bytes)
    requires |p| == PACKET
  {
    HasAdaptation(p) && p[4] >= 1 && p[5] & 0x40 != 0
  }

  // ---- a packet taken apart

  lemma HeadBack(pid: bv16, first: bool, afc: bv8, cc: bv8)
    requires pid < 0x2000 && afc & 0x0f == 0
    ensures var h := Head(pid, first, afc, cc);
            && ((h[1] & 0x1f) as bv16 << 8) | h[2] as bv16 == pid
            && (h[1] & 0x40 != 0 <==> first)
            && h[3] & 0x0f == cc & 0x0f && h[3] & 0xf0 == afc & 0xf0
  {
  }

  lemma ControlBits(h: bv8, afc: bv8)
    requires h & 0xf0 == afc && (afc == 0x10 || afc == 0x30)
    ensures h & 0x10 != 0 && (h & 0x20 != 0 <==> afc == 0x30)
  {
  }

  // The adaptation field's length byte covers the rest of the field.
  lemma AdaptationLength(x: Extra, take: nat)
    requires 0 < take < 184 && take <= Room(x)
    ensures Adaptation(x, take) != [] && Adaptation(x, take)[0] as nat == 183 - take
  {
    ByteBack(183 - take);
    AdaptationHead(x, take);
  }

  lemma AdaptationHead(x: Extra, take: nat)
    requires 0 < take < 184 && take <= Room(x)
    ensures Adaptation(x, take)[0] == (183 - take) as bv8
  {
    hide Fields;
    if x == NOTHING && Room(x) - take == 1 {
      assert Adaptation(x, take) == [0];
    }
  }

  lemma PacketParts(pid: bv16, first: bool, cc: bv8, x: Extra, chunk: Bytes)
    requires 0 < |chunk| <= Room(x)
    ensures var (p, a) := (Packet(pid, first, cc, x, chunk), Adaptation(x, |chunk|));
            && p[..4] == Head(pid, first, if a == [] then 0x10 else 0x30, cc)
            && p[4..4 + |a|] == a && p[4 + |a|..] == chunk && |a| == 184 - |chunk|
            && (a != [] ==> p[4] == a[0])
  {
    hide Head, Adaptation;
  }

  lemma StartsAt(pid: bv16, first: bool, cc: bv8, x: Extra, chunk: Bytes)
    requires pid < 0x2000 && 0 < |chunk| <= Room(x)
    ensures var p := Packet(pid, first, cc, x, chunk);
            && PayloadStart(p) == PACKET - |chunk| && p[3] & 0x10 != 0
            && (HasAdaptation(p) <==> |chunk| < 184)
  {
    var a := Adaptation(x, |chunk|);
    var p := Packet(pid, first, cc, x, chunk);
    var afc: bv8 := if a == [] then 0x10 else 0x30;
    PacketParts(pid, first, cc, x, chunk);
    HeadBack(pid, first, afc, cc);
    assert p[3] == p[..4][3];
    ControlBits(p[3], afc);
    if |chunk| < 184 {
      AdaptationLength(x, |chunk|);
    }
    hide Head, Adaptation, Packet;
  }

  lemma HeadOf(p: Bytes, pid: bv16, first: bool, afc: bv8, cc: bv8)
    requires |p| == PACKET && p[..4] == Head(pid, first, afc, cc) && pid < 0x2000 && afc & 0x0f == 0
    ensures p[0] == 0x47 && PidOf(p) == pid && (StartsUnit(p) <==> first) && CounterOf(p) == cc & 0x0f
  {
    HeadBack(pid, first, afc, cc);
    assert Head(pid, first, afc, cc)[0] == 0x47;
    hide Head;
    assert p[0] == p[..4][0] && p[1] == p[..4][1] && p[2] == p[..4][2] && p[3] == p[..4][3];
  }

  lemma PayloadIs(p: Bytes, chunk: Bytes)
    requires |p| == PACKET && |chunk| <= PACKET && PayloadStart(p) == PACKET - |chunk| && p[3] & 0x10 != 0
    requires p[PACKET - |chunk|..] == chunk
    ensures PayloadOf(p) == chunk
  {
    hide PayloadStart;
  }

  /** Any demultiplexer gets the chunk back out of the packet, with its PID,
      start flag and counter. */
  lemma PacketBack(pid: bv16, first: bool, cc: bv8, x: Extra, chunk: Bytes)
    requires pid < 0x2000 && 0 < |chunk| <= Room(x)
    ensures var p := Packet(pid, first, cc, x, chunk);
            && p[0] == 0x47 && PayloadOf(p) == chunk && PidOf(p) == pid
            && (StartsUnit(p) <==> first) && CounterOf(p) == cc & 0x0f
  {
    var p := Packet(pid, first, cc, x, chunk);
    var afc: bv8 := if Adaptation(x, |chunk|) == [] then 0x10 else 0x30;
    PacketParts(pid, first, cc, x, chunk);
    StartsAt(pid, first, cc, x, chunk);
    hide *;
    HeadOf(p, pid, first, afc, cc);
    PayloadIs(p, chunk);
  }

  lemma FlagBits(pcr: bool, random: bool)
    ensures var f: bv8 := (if pcr then 0x10 else 0) | (if random then 0x40 else 0);
            (f & 0x10 != 0 <==> pcr) && (f & 0x40 != 0 <==> random)
  {
  }

  // The bytes of the fields inside the adaptation field
  lemma FieldsAt(x: Extra, take: nat)
    requires 0 < take <= Room(x) && x != NOTHING
    ensures var (a, f) := (Adaptation(x, take), Fields(x));
            |f| >= 1 && |a| >= 1 + |f| && a[1..1 + |f|] == f && a[1] == f[0]
    ensures x.pcr.Some? ==> |Fields(x)| == 7 && Adaptation(x, take)[2..8] == PcrBytes(x.pcr.value)
  {
    var a, f := Adaptation(x, take), Fields(x);
    assert a[1..1 + |f|] == f;
    hide PcrBytes;
    if x.pcr.Some? {
      assert f[1..] == PcrBytes(x.pcr.value);
      assert a[2..8] == a[1..8][1..];
    }
  }

  lemma LongEnough(n: nat, b: bv8)
    requires b as nat == n
    ensures b >= 7 <==> n >= 7
    ensures b >= 1 <==> n >= 1
  {
  }

  // Bytes 4 to 11 of a packet with fields
  lemma FieldBytes(pid: bv16, first: bool, cc: bv8, x: Extra, chunk: Bytes)
    requires pid < 0x2000 && 0 < |chunk| <= Room(x) && x != NOTHING
    ensures var p := Packet(pid, first, cc, x, chunk);
            && p[4] as nat == 183 - |chunk| && p[5] == Fields(x)[0]
            && (x.pcr.Some? ==> p[6..12] == PcrBytes(x.pcr.value))
  {
    var a, p := Adaptation(x, |chunk|), Packet(pid, first, cc, x, chunk);
    PacketParts(pid, first, cc, x, chunk);
    FieldsAt(x, |chunk|);
    AdaptationLength(x, |chunk|);
    hide *;
    assert p[5] == p[4..4 + |a|][1];
    if x.pcr.Some? {
      assert p[6..12] == p[4..4 + |a|][2..8];
    }
  }

  // With fields there is room for at most 182 bytes, and 176 beside a clock.
  lemma RoomLeft(x: Extra)
    requires x != NOTHING
    ensures Room(x) < 183 && (x.pcr.Some? ==> Room(x) == 176)
  {
    hide PcrBytes;
  }

  /** The clock reference and the random access flag come back too, on a packet
      that was given any of them. */
  lemma ExtrasBack(pid: bv16, first: bool, cc: bv8, x: Extra, chunk: Bytes)
    requires pid < 0x2000 && 0 < |chunk| <= Room(x) && x != NOTHING
    ensures var p := Packet(pid, first, cc, x, chunk);
            && (RandomAccess(p) <==> x.random)
            && ClockOf(p) == if x.pcr.Some? then Some(x.pcr.value & 0x1_ffff_ffff) else None
  {
    var p := Packet(pid, first, cc, x, chunk);
    RoomLeft(x);
    StartsAt(pid, first, cc, x, chunk);
    FieldBytes(pid, first, cc, x, chunk);
    FlagBits(x.pcr.Some?, x.random);
    LongEnough(183 - |chunk|, p[4]);
    if x.pcr.Some? {
      PcrBack(x.pcr.value);
    }
    FirstField(x);
    hide Packet, Fields, HasAdaptation, PcrOf, PcrBytes, Room;
  }

  lemma FirstField(x: Extra)
    requires x != NOTHING
    ensures Fields(x) != []
    ensures Fields(x)[0] == (if x.pcr.Some? then 0x10 else 0) | (if x.random then 0x40 else 0)
  {
  }
}
