/** The MISB ST 0604 precision time stamp as an SEI message: what the builder
    writes and what the parser finds in a NAL unit. */
module SeiTimestamp {
  import opened Basics
  import opened VuiEscape

  const H264: int := 0
  const H265: int := 1
  const PREFIX_NONE: int := 0
  const PREFIX_ANNEXB: int := 1
  const PREFIX_AVCC: int := 2
  const UDU: nat := 5
  const PAYLOAD_SIZE: nat := 28

  datatype Errno = EINVAL | ENOSPC | ENOENT | EBADMSG

  datatype Result<T> = Ok(value: T) | Err(error: Errno)

  datatype Stamp = Stamp(utc: bv64, status: bv8)

  // ---- the layout

  // "MISPmicrosectime", and the H.265 identifier of ST 0604.6 section 7.2
  function Uuid(codec: int): (u: Bytes)
    ensures |u| == 16
  {
    if codec == H264 then
      [0x4d, 0x49, 0x53, 0x50, 0x6d, 0x69, 0x63, 0x72, 0x6f, 0x73, 0x65, 0x63, 0x74, 0x69, 0x6d, 0x65]
    else
      [0xa8, 0x68, 0x7d, 0xd4, 0xd7, 0x59, 0x37, 0x58, 0xa5, 0xce, 0xf0, 0x33, 0x8b, 0x65, 0x45, 0xf1]
  }

  predicate Known(codec: int) {
    codec == H264 || codec == H265
  }

  function HeaderLen(codec: int): nat {
    if codec == H264 then 1 else 2
  }

  function Header(codec: int): (h: Bytes)
    ensures |h| == HeaderLen(codec)
  {
    if codec == H264 then [0x06] else [0x4e, 0x01]
  }

  // Byte number k of t, the most significant first
  function TimeByte(t: bv64, k: nat): bv8
    requires k < 8
  {
    match k
    case 0 => ((t >> 56) & 0xff) as bv8
    case 1 => ((t >> 48) & 0xff) as bv8
    case 2 => ((t >> 40) & 0xff) as bv8
    case 3 => ((t >> 32) & 0xff) as bv8
    case 4 => ((t >> 24) & 0xff) as bv8
    case 5 => ((t >> 16) & 0xff) as bv8
    case 6 => ((t >> 8) & 0xff) as bv8
    case _ => (t & 0xff) as bv8
  }

  // The status and the time in pairs of bytes with guards between them
  function StampBytes(x: Stamp): (b: Bytes)
    ensures |b| == 12
  {
    var t := x.utc;
    [x.status | 0x1f,
     TimeByte(t, 0), TimeByte(t, 1), 0xff, TimeByte(t, 2), TimeByte(t, 3), 0xff,
     TimeByte(t, 4), TimeByte(t, 5), 0xff, TimeByte(t, 6), TimeByte(t, 7)]
  }

  function Payload(codec: int, x: Stamp): (b: Bytes)
    ensures |b| == PAYLOAD_SIZE
  {
    Uuid(codec) + StampBytes(x)
  }

  function BareNal(codec: int, x: Stamp): (b: Bytes)
    ensures |b| == HeaderLen(codec) + 31
  {
    Header(codec) + [0x05, 0x1c] + Payload(codec, x) + [0x80]
  }

  function Prefix(codec: int, prefix: int): Bytes {
    if prefix == PREFIX_ANNEXB then [0, 0, 0, 1]
    else if prefix == PREFIX_AVCC then [0, 0, 0, if codec == H264 then 32 else 33]
    else []
  }

  // rss_sei_build_timestamp for a buffer of `cap` bytes
  function Build(cap: nat, codec: int, prefix: int, x: Stamp): Result<Bytes> {
    if !Known(codec) then Err(EINVAL)
    else if cap < (if prefix == PREFIX_NONE then 0 else 4) + HeaderLen(codec) + 31 then Err(ENOSPC)
    else if prefix != PREFIX_NONE && prefix != PREFIX_ANNEXB && prefix != PREFIX_AVCC then Err(EINVAL)
    else Ok(Prefix(codec, prefix) + BareNal(codec, x))
  }

  // ---- the parser

  function Wrap32(v: nat): (r: nat)
    ensures v < 0x1_0000_0000 ==> r == v
  {
    v % 0x1_0000_0000
  }

  // A payload type or size: FF bytes count 255 each. The next offset and the sum
  function VarAt(nal: Bytes, p: nat, acc: nat): Result<(nat, nat)>
    requires p <= |nal|
    ensures VarAt(nal, p, acc).Ok? ==> p < VarAt(nal, p, acc).value.0 <= |nal|
    decreases |nal| - p
  {
    if p == |nal| then Err(ENOENT)
    else if nal[p] == 0xff then VarAt(nal, p + 1, Wrap32(acc + 255))
    else Ok((p + 1, Wrap32(acc + nal[p] as nat)))
  }

  predicate ZeroFrom(nal: Bytes, p: nat) {
    forall i | p <= i < |nal| :: nal[i] == 0
  }

  function TimeOf(d: Bytes): bv64
    requires |d| >= 12
  {
    (d[1] as bv64 << 56) | (d[2] as bv64 << 48) | (d[4] as bv64 << 40) | (d[5] as bv64 << 32)
    | (d[7] as bv64 << 24) | (d[8] as bv64 << 16) | (d[10] as bv64 << 8) | (d[11] as bv64)
  }

  // The twelve bytes after a matching identifier
  function ReadStamp(d: Bytes): Result<Stamp>
    requires |d| >= 12
  {
    if d[3] != 0xff || d[6] != 0xff || d[9] != 0xff then Err(EBADMSG)
    else Ok(Stamp(TimeOf(d), d[0]))
  }

  predicate Matches(codec: int, kind: nat, payload: Bytes) {
    kind == UDU && |payload| >= PAYLOAD_SIZE && payload[..16] == Uuid(codec)
  }

  // The message walk from offset p on
  function Walk(nal: Bytes, p: nat, codec: int): Result<Stamp>
    requires p <= |nal|
    decreases |nal| - p
  {
    if p == |nal| || (nal[p] == 0x80 && ZeroFrom(nal, p + 1)) then Err(ENOENT)
    else
      match VarAt(nal, p, 0)
      case Err(e) => Err(e)
      case Ok((q, kind)) =>
        match VarAt(nal, q, 0)
        case Err(e) => Err(e)
        case Ok((d, size)) =>
          if |nal| - d < size then Err(ENOENT)
          else if Matches(codec, kind, nal[d..d + size]) then ReadStamp(nal[d + 16..d + size])
          else Walk(nal, d + size, codec)
  }

  predicate IsSei(nal: Bytes, codec: int) {
    if codec == H264 then |nal| >= 1 && nal[0] & 0x1f == 6
    else |nal| >= 2 && (nal[0] >> 1) & 0x3f == 39
  }

  // rss_sei_parse_timestamp
  function Parse(nal: Bytes, codec: int): Result<Stamp> {
    if !Known(codec) then Err(EINVAL)
    else if !IsSei(nal, codec) then Err(ENOENT)
    else Walk(nal, HeaderLen(codec), codec)
  }

  // ---- SEI messages, section 7.3.2.3.1 of ITU-T H.264

  datatype Message = Message(kind: nat, payload: Bytes)

  function VarBytes(n: nat): (b: Bytes)
    ensures |b| > 0
  {
    if n >= 255 then [0xff] + VarBytes(n - 255) else [n as bv8]
  }

  function MessageBytes(m: Message): Bytes {
    VarBytes(m.kind) + VarBytes(|m.payload|) + m.payload
  }

  function MessagesBytes(ms: seq<Message>): Bytes {
    if ms == [] then [] else MessageBytes(ms[0]) + MessagesBytes(ms[1..])
  }

  // Kinds and sizes that a 32-bit sum holds
  predicate Sized(m: Message) {
    m.kind < 0x1_0000_0000 && |m.payload| < 0x1_0000_0000
  }

  // The first message with the identifier decides.
  function FirstMatch(codec: int, ms: seq<Message>): Result<Stamp> {
    if ms == [] then Err(ENOENT)
    else if Matches(codec, ms[0].kind, ms[0].payload) then ReadStamp(ms[0].payload[16..])
    else FirstMatch(codec, ms[1..])
  }

  // ---- the walk reads messages

  lemma ConsSlice(nal: Bytes, p: nat, b: bv8, rest: Bytes)
    requires p + 1 + |rest| <= |nal| && nal[p..p + 1 + |rest|] == [b] + rest
    ensures nal[p] == b && nal[p + 1..p + 1 + |rest|] == rest
  {
    var w := nal[p..p + 1 + |rest|];
    assert w[0] == b && w[1..] == rest;
    assert nal[p + 1..p + 1 + |rest|] == w[1..];
  }

  // One byte of a payload type or size
  lemma VarStep(nal: Bytes, p: nat, acc: nat)
    requires p < |nal|
    ensures nal[p] == 0xff && acc + 255 < 0x1_0000_0000 ==> VarAt(nal, p, acc) == VarAt(nal, p + 1, acc + 255)
    ensures nal[p] != 0xff && acc + nal[p] as nat < 0x1_0000_0000 ==>
              VarAt(nal, p, acc) == Ok((p + 1, acc + nal[p] as nat))
  {
  }

  lemma VarBytesAre(n: nat)
    ensures n >= 255 ==> VarBytes(n) == [0xff] + VarBytes(n - 255)
    ensures n < 255 ==> VarBytes(n) == [n as bv8] + []
  {
  }

  lemma {:induction false} VarReads(nal: Bytes, p: nat, acc: nat, n: nat)
    requires p + |VarBytes(n)| <= |nal| && nal[p..p + |VarBytes(n)|] == VarBytes(n)
    requires acc + n < 0x1_0000_0000
    ensures VarAt(nal, p, acc) == Ok((p + |VarBytes(n)|, acc + n))
    decreases n
  {
    hide *;
    VarBytesAre(n);
    VarStep(nal, p, acc);
    if n >= 255 {
      ConsSlice(nal, p, 0xff, VarBytes(n - 255));
      VarReads(nal, p + 1, acc + 255, n - 255);
    } else {
      ConsSlice(nal, p, n as bv8, []);
      ByteValue(n);
    }
  }

  lemma ByteValue(n: nat)
    requires n < 255
    ensures n as bv8 != 0xff && (n as bv8) as nat == n
  {
    ByteBack(n);
    BelowFf(n as bv8, n);
  }

  lemma BelowFf(b: bv8, n: nat)
    requires b as nat == n && n < 255
    ensures b != 0xff
  {
  }

  lemma Slices(nal: Bytes, p: nat, w: Bytes, a: Bytes, b: Bytes, c: Bytes)
    requires p + |w| <= |nal| && nal[p..p + |w|] == w && w == a + b + c
    ensures nal[p..p + |a|] == a
    ensures nal[p + |a|..p + |a| + |b|] == b
    ensures nal[p + |a| + |b|..p + |a| + |b| + |c|] == c
  {
    assert w[0..|a|] == a && w[|a|..|a| + |b|] == b && w[|a| + |b|..|w|] == c;
    SubSlice(nal, p, |w|, 0, |a|);
    SubSlice(nal, p, |w|, |a|, |a| + |b|);
    SubSlice(nal, p, |w|, |a| + |b|, |w|);
  }

  lemma WalkStep(nal: Bytes, p: nat, codec: int, q: nat, kind: nat, d: nat, payload: Bytes)
    requires p < |nal| && !ZeroFrom(nal, p + 1)
    requires VarAt(nal, p, 0) == Ok((q, kind)) && VarAt(nal, q, 0) == Ok((d, |payload|))
    requires d + |payload| <= |nal| && nal[d..d + |payload|] == payload
    ensures Walk(nal, p, codec)
         == if Matches(codec, kind, payload) then ReadStamp(payload[16..]) else Walk(nal, d + |payload|, codec)
  {
    hide VarAt, ReadStamp, ZeroFrom, Uuid;
    if Matches(codec, kind, payload) {
      assert nal[d + 16..d + |payload|] == nal[d..d + |payload|][16..];
    }
  }

  lemma WalkParts(nal: Bytes, p: nat, q: nat, d: nat, m: Message, codec: int)
    requires m.kind < 0x1_0000_0000 && |m.payload| < 0x1_0000_0000
    requires q == p + |VarBytes(m.kind)| && d == q + |VarBytes(|m.payload|)| && d + |m.payload| <= |nal|
    requires nal[p..q] == VarBytes(m.kind) && nal[q..d] == VarBytes(|m.payload|)
    requires nal[d..d + |m.payload|] == m.payload && !ZeroFrom(nal, p + 1)
    ensures Walk(nal, p, codec)
         == if Matches(codec, m.kind, m.payload) then ReadStamp(m.payload[16..])
            else Walk(nal, d + |m.payload|, codec)
  {
    hide *;
    VarReads(nal, p, 0, m.kind);
    VarReads(nal, q, 0, |m.payload|);
    WalkStep(nal, p, codec, q, m.kind, d, m.payload);
  }

  lemma MessageParts(m: Message)
    requires Sized(m)
    ensures var (a, b) := (VarBytes(m.kind), VarBytes(|m.payload|));
            MessageBytes(m) == a + b + m.payload && |MessageBytes(m)| == |a| + |b| + |m.payload|
    ensures m.kind < 0x1_0000_0000 && |m.payload| < 0x1_0000_0000
  {
    hide VarBytes;
  }

  lemma WalkMessage(nal: Bytes, p: nat, m: Message, codec: int)
    requires Sized(m) && p + |MessageBytes(m)| <= |nal| && nal[p..p + |MessageBytes(m)|] == MessageBytes(m)
    requires !ZeroFrom(nal, p + 1)
    ensures Walk(nal, p, codec)
         == if Matches(codec, m.kind, m.payload) then ReadStamp(m.payload[16..])
            else Walk(nal, p + |MessageBytes(m)|, codec)
  {
    hide *;
    MessageParts(m);
    var a, b := VarBytes(m.kind), VarBytes(|m.payload|);
    Slices(nal, p, MessageBytes(m), a, b, m.payload);
    WalkParts(nal, p, p + |a|, p + |a| + |b|, m, codec);
  }

  // The stop bit and zero bytes
  function Trailer(zeros: nat): (t: Bytes)
    ensures |t| == zeros + 1 && t[0] == 0x80 && forall i | 1 <= i < |t| :: t[i] == 0
  {
    [0x80] + seq(zeros, _ => 0)
  }

  lemma WalkEnds(nal: Bytes, p: nat, zeros: nat, codec: int)
    requires p <= |nal| && nal[p..] == Trailer(zeros)
    ensures Walk(nal, p, codec) == Err(ENOENT)
  {
    assert nal[p] == nal[p..][0];
    forall i | p + 1 <= i < |nal|
      ensures nal[i] == 0
    {
      assert nal[i] == nal[p..][i - p];
    }
  }

  lemma MoreToCome(nal: Bytes, p: nat, y: Bytes, zeros: nat)
    requires p <= |nal| && y != [] && nal[p..] == y + Trailer(zeros)
    ensures !ZeroFrom(nal, p + 1)
  {
    assert nal[p + |y|] == nal[p..][|y|] == 0x80;
  }

  lemma SplitHead(nal: Bytes, p: nat, m: Bytes, rest: Bytes)
    requires p <= |nal| && nal[p..] == m + rest
    ensures p + |m| <= |nal| && nal[p..p + |m|] == m && nal[p + |m|..] == rest
  {
    assert nal[p..p + |m|] == nal[p..][..|m|];
    assert nal[p + |m|..] == nal[p..][|m|..];
  }

  lemma {:induction false} WalkMessages(nal: Bytes, p: nat, ms: seq<Message>, zeros: nat, codec: int)
    requires forall i | 0 <= i < |ms| :: Sized(ms[i])
    requires p <= |nal| && nal[p..] == MessagesBytes(ms) + Trailer(zeros)
    ensures Walk(nal, p, codec) == FirstMatch(codec, ms)
    decreases |ms|
  {
    hide Walk, Sized, MessageBytes, Trailer, Matches, ReadStamp;
    if ms == [] {
      assert [] + Trailer(zeros) == Trailer(zeros);
      WalkEnds(nal, p, zeros, codec);
    } else {
      var m, rest := MessageBytes(ms[0]), MessagesBytes(ms[1..]);
      MessageNotEmpty(ms[0]);
      MoreToCome(nal, p, m + rest, zeros);
      assert m + rest + Trailer(zeros) == m + (rest + Trailer(zeros));
      SplitHead(nal, p, m, rest + Trailer(zeros));
      WalkMessage(nal, p, ms[0], codec);
      WalkMessages(nal, p + |m|, ms[1..], zeros, codec);
    }
  }

  lemma MessageNotEmpty(m: Message)
    ensures MessageBytes(m) != []
  {
  }

  lemma SeiByHeader(head: Bytes, rest: Bytes, codec: int)
    requires Known(codec) && |head| == HeaderLen(codec) && IsSei(head, codec)
    ensures IsSei(head + rest, codec)
  {
    assert (head + rest)[0] == head[0];
  }

  // A NAL unit of messages, with the stop bit and zero bytes behind them
  function SeiNal(head: Bytes, ms: seq<Message>, zeros: nat): Bytes {
    head + (MessagesBytes(ms) + Trailer(zeros))
  }

  /** The parser over a well-formed SEI NAL unit of any messages: it finds the
      stamp of the first message that carries the identifier, answers EBADMSG if
      a guard byte of that message is wrong, and ENOENT if there is none. */
  lemma ParseFindsFirst(codec: int, head: Bytes, ms: seq<Message>, zeros: nat)
    requires Known(codec) && |head| == HeaderLen(codec) && IsSei(head, codec)
    requires forall i | 0 <= i < |ms| :: Sized(ms[i])
    ensures Parse(SeiNal(head, ms, zeros), codec) == FirstMatch(codec, ms)
  {
    var rest := MessagesBytes(ms) + Trailer(zeros);
    var nal := head + rest;
    SeiByHeader(head, rest, codec);
    hide IsSei, Walk, MessagesBytes, FirstMatch;
    assert nal[|head|..] == rest;
    WalkMessages(nal, |head|, ms, zeros, codec);
  }

  // ---- the round trip

  lemma TimeBack(t: bv64, status: bv8)
    ensures TimeOf(StampBytes(Stamp(t, status))) == t
  {
  }

  lemma StampBack(x: Stamp)
    ensures ReadStamp(StampBytes(x)) == Ok(Stamp(x.utc, x.status | 0x1f))
  {
    TimeBack(x.utc, x.status);
  }

  function Ours(codec: int, x: Stamp): Message {
    Message(UDU, Payload(codec, x))
  }

  lemma BareNalIs(codec: int, x: Stamp)
    ensures BareNal(codec, x) == Header(codec) + MessageBytes(Ours(codec, x)) + [0x80]
  {
    assert VarBytes(UDU) == [0x05] && VarBytes(PAYLOAD_SIZE) == [0x1c];
    hide Payload, Header;
    assert Header(codec) + [0x05, 0x1c] + Payload(codec, x) == Header(codec) + ([0x05] + [0x1c] + Payload(codec, x));
  }

  lemma {:induction false} FirstMatchSkips(codec: int, ms: seq<Message>, m: Message)
    requires forall i | 0 <= i < |ms| :: !Matches(codec, ms[i].kind, ms[i].payload)
    requires Matches(codec, m.kind, m.payload)
    ensures FirstMatch(codec, ms + [m]) == ReadStamp(m.payload[16..])
    decreases |ms|
  {
    if ms == [] {
      assert ms + [m] == [m];
    } else {
      assert (ms + [m])[0] == ms[0] && (ms + [m])[1..] == ms[1..] + [m];
      FirstMatchSkips(codec, ms[1..], m);
    }
  }

  lemma {:induction false} MessagesSnoc(ms: seq<Message>, m: Message)
    ensures MessagesBytes(ms + [m]) == MessagesBytes(ms) + MessageBytes(m)
    decreases |ms|
  {
    hide MessageBytes;
    if ms == [] {
      assert ms + [m] == [m];
      assert MessagesBytes([m]) == MessageBytes(m) + MessagesBytes([]);
    } else {
      assert (ms + [m])[0] == ms[0] && (ms + [m])[1..] == ms[1..] + [m];
      MessagesSnoc(ms[1..], m);
    }
  }

  // The built message behind others in one NAL unit
  lemma SplicedNal(codec: int, x: Stamp, foreign: seq<Message>)
    ensures Header(codec) + MessagesBytes(foreign) + BareNal(codec, x)[HeaderLen(codec)..]
         == SeiNal(Header(codec), foreign + [Ours(codec, x)], 0)
  {
    var m, head := MessageBytes(Ours(codec, x)), Header(codec);
    BareNalIs(codec, x);
    MessagesSnoc(foreign, Ours(codec, x));
    hide MessageBytes, MessagesBytes, Header, BareNal;
    assert BareNal(codec, x)[|head|..] == m + [0x80];
    assert Trailer(0) == [0x80];
    Rejoin(head, MessagesBytes(foreign), m, [0x80]);
  }

  lemma Rejoin(a: Bytes, b: Bytes, c: Bytes, d: Bytes)
    ensures a + b + (c + d) == a + (b + c + d)
  {
  }

  lemma ParsesAfter(codec: int, x: Stamp, foreign: seq<Message>)
    requires Known(codec)
    requires forall i | 0 <= i < |foreign| :: Sized(foreign[i]) && !Matches(codec, foreign[i].kind, foreign[i].payload)
    ensures Parse(SeiNal(Header(codec), foreign + [Ours(codec, x)], 0), codec) == Ok(Stamp(x.utc, x.status | 0x1f))
  {
    var m := Ours(codec, x);
    OursMatches(codec, x);
    StampBack(x);
    HeaderIsSei(codec);
    hide SeiNal, Parse, FirstMatch, Matches, ReadStamp, Sized, Header, IsSei, Ours, StampBytes;
    FirstMatchSkips(codec, foreign, m);
    ParseFindsFirst(codec, Header(codec), foreign + [m], 0);
  }

  lemma HeaderIsSei(codec: int)
    requires Known(codec)
    ensures IsSei(Header(codec), codec)
  {
  }

  lemma OursMatches(codec: int, x: Stamp)
    ensures var m := Ours(codec, x);
            Sized(m) && Matches(codec, m.kind, m.payload) && m.payload[16..] == StampBytes(x)
  {
    hide Uuid, StampBytes;
    assert Payload(codec, x)[..16] == Uuid(codec) && Payload(codec, x)[16..] == StampBytes(x);
  }

  /** The round trip. For every 64-bit time, status and codec, parsing the built
      bare NAL unit gives the time back and the status with its reserved bits
      set; and so it does with any messages of other kinds, or with other
      identifiers, put in between the header and the built message. */
  lemma RoundTrip(codec: int, x: Stamp, foreign: seq<Message>)
    requires Known(codec)
    requires forall i | 0 <= i < |foreign| :: Sized(foreign[i]) && !Matches(codec, foreign[i].kind, foreign[i].payload)
    ensures Parse(BareNal(codec, x), codec) == Ok(Stamp(x.utc, x.status | 0x1f))
    ensures Parse(Header(codec) + MessagesBytes(foreign) + BareNal(codec, x)[HeaderLen(codec)..], codec)
         == Ok(Stamp(x.utc, x.status | 0x1f))
  {
    SplicedNal(codec, x, []);
    ParsesAfter(codec, x, []);
    NothingSpliced(codec, x);
    SplicedNal(codec, x, foreign);
    ParsesAfter(codec, x, foreign);
  }

  lemma NothingSpliced(codec: int, x: Stamp)
    ensures Header(codec) + MessagesBytes([]) + BareNal(codec, x)[HeaderLen(codec)..] == BareNal(codec, x)
  {
    hide Payload, Header;
    var y := BareNal(codec, x);
    assert y[..HeaderLen(codec)] == Header(codec);
    assert Header(codec) + [] + y[HeaderLen(codec)..] == y;
  }

  // ---- no emulation prevention needed

  // No byte up to 03 comes after two zeros.
  predicate NoStuffing(y: Bytes) {
    forall i | 0 <= i < |y| && AfterZeros(y, i) :: y[i] > 3
  }

  lemma {:induction false} UnescapesToItself(y: Bytes, i: nat)
    requires i <= |y| && NoStuffing(y)
    ensures UnescapedFrom(y, i) == y[i..]
    decreases |y| - i
  {
    if i < |y| {
      UnescapesToItself(y, i + 1);
      assert !Stuffed(y, i);
      assert y[i..] == [y[i]] + y[i + 1..];
    }
  }

  lemma NeedsNoEscape(y: Bytes)
    requires NoStuffing(y)
    ensures Escape(y) == y
  {
    UnescapesToItself(y, 0);
    EscapeUnescape(y);
  }

  predicate NonZero(s: Bytes) {
    forall i | 0 <= i < |s| :: s[i] != 0
  }

  // What stands in front of the status byte
  function Front(codec: int): (f: Bytes)
    ensures |f| == HeaderLen(codec) + 18
  {
    Header(codec) + [0x05, 0x1c] + Uuid(codec)
  }

  lemma FrontNonZero(codec: int)
    ensures NonZero(Front(codec))
  {
    assert NonZero(Uuid(codec)) && NonZero(Header(codec)) && NonZero([0x05, 0x1c]);
    hide Uuid, Header;
  }

  lemma StampZeros(x: Stamp, i: nat)
    requires i < 13 && AfterZeros(StampBytes(x) + [0x80], i)
    ensures (StampBytes(x) + [0x80])[i] > 3
  {
    StatusByte(x.status);
    hide TimeByte;
  }

  lemma StatusByte(s: bv8)
    ensures s | 0x1f != 0
  {
  }

  lemma StopsZeros(front: Bytes, back: Bytes)
    requires NonZero(front) && NoStuffing(back) && back != [] && back[0] != 0
    ensures NoStuffing(front + back)
  {
    var y := front + back;
    forall i | 0 <= i < |y| && AfterZeros(y, i)
      ensures y[i] > 3
    {
      assert i - 2 >= |front| by {
        assert y[i - 2] == 0 && y[i - 1] == 0;
      }
      assert AfterZeros(back, i - |front|);
    }
  }

  /** A built NAL unit is a fixed point of the RBSP escape: the guards, the
      status and the stop bit keep any two zeros apart from what would need it. */
  lemma BareNalNeedsNoEscape(codec: int, x: Stamp)
    ensures Escape(BareNal(codec, x)) == BareNal(codec, x)
  {
    var back := StampBytes(x) + [0x80];
    FrontNonZero(codec);
    StatusByte(x.status);
    assert back[0] == x.status | 0x1f;
    assert NoStuffing(back) by {
      forall i | 0 <= i < |back| && AfterZeros(back, i)
        ensures back[i] > 3
      {
        StampZeros(x, i);
      }
    }
    StopsZeros(Front(codec), back);
    NeedsNoEscape(Front(codec) + back);
    FrontAndBack(codec, x);
  }

  lemma FrontAndBack(codec: int, x: Stamp)
    ensures Front(codec) + (StampBytes(x) + [0x80]) == BareNal(codec, x)
  {
    hide Uuid, Header, StampBytes;
    var h := Header(codec) + [0x05, 0x1c];
    assert h + Uuid(codec) + (StampBytes(x) + [0x80]) == h + (Uuid(codec) + StampBytes(x)) + [0x80];
  }
}
