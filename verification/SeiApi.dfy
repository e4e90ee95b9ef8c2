/** The builder that writes through a moving pointer and the parser that
    advances one, proved against SeiTimestamp. */
module SeiApi {
  import opened Basics
  import opened VuiEscape
  import opened SeiTimestamp

  // memcpy to the moving pointer
  method PutBytes(dst: array<bv8>, at: nat, b: Bytes) returns (p: nat)
    requires at + |b| <= dst.Length
    modifies dst
    ensures p == at + |b| && dst[..p] == old(dst[..at]) + b && (forall i | p <= i < dst.Length :: dst[i] == old(dst[i]))
  {
    p := at;
    for i := 0 to |b|
      invariant p == at + i
      invariant dst[..p] == old(dst[..at]) + b[..i] && forall j | p <= j < dst.Length :: dst[j] == old(dst[j])
    {
      ghost var before := dst[..p];
      dst[p] := b[i];
      assert dst[..p + 1] == before + [b[i]];
      assert b[..i + 1] == b[..i] + [b[i]];
      p := p + 1;
    }
    assert b[..|b|] == b;
  }

  // The status and the eleven bytes of the time
  method PutStamp(dst: array<bv8>, at: nat, x: Stamp) returns (p: nat)
    requires at + 12 <= dst.Length
    modifies dst
    ensures p == at + 12 && dst[..p] == old(dst[..at]) + StampBytes(x) && (forall i | p <= i < dst.Length :: dst[i] == old(dst[i]))
  {
    var t := x.utc;
    var a := [x.status | 0x1f, ((t >> 56) & 0xff) as bv8, ((t >> 48) & 0xff) as bv8, 0xff];
    var b := [((t >> 40) & 0xff) as bv8, ((t >> 32) & 0xff) as bv8, 0xff];
    var c := [((t >> 24) & 0xff) as bv8, ((t >> 16) & 0xff) as bv8, 0xff];
    var d := [((t >> 8) & 0xff) as bv8, (t & 0xff) as bv8];
    StampPieces(x, a, b, c, d);
    hide *;
    p := PutBytes(dst, at, a);
    p := PutBytes(dst, p, b);
    p := PutBytes(dst, p, c);
    p := PutBytes(dst, p, d);
    Join(old(dst[..at]), a, b, c, d);
  }

  lemma StampPieces(x: Stamp, a: Bytes, b: Bytes, c: Bytes, d: Bytes)
    requires var t := x.utc;
             && a == [x.status | 0x1f, TimeByte(t, 0), TimeByte(t, 1), 0xff]
             && b == [TimeByte(t, 2), TimeByte(t, 3), 0xff]
             && c == [TimeByte(t, 4), TimeByte(t, 5), 0xff]
             && d == [TimeByte(t, 6), TimeByte(t, 7)]
    ensures StampBytes(x) == a + b + c + d
  {
    hide TimeByte;
  }

  lemma Join(x: Bytes, a: Bytes, b: Bytes, c: Bytes, d: Bytes)
    ensures x + a + b + c + d == x + (a + b + c + d)
  {
  }

  method PutNal(dst: array<bv8>, at: nat, codec: int, x: Stamp) returns (p: nat)
    requires Known(codec) && at + |BareNal(codec, x)| <= dst.Length
    modifies dst
    ensures p == at + |BareNal(codec, x)| && dst[..p] == old(dst[..at]) + BareNal(codec, x)
    ensures (forall i | p <= i < dst.Length :: dst[i] == old(dst[i]))
  {
    hide Uuid, StampBytes;
    if codec == H264 {
      p := PutBytes(dst, at, [0x06]);
    } else {
      p := PutBytes(dst, at, [0x4e, 0x01]);
    }
    assert dst[..p] == old(dst[..at]) + Header(codec);
    p := PutBytes(dst, p, [0x05, 0x1c]);
    p := PutBytes(dst, p, Uuid(codec));
    p := PutStamp(dst, p, x);
    p := PutBytes(dst, p, [0x80]);
    Regroup(old(dst[..at]), Header(codec), [0x05, 0x1c], Uuid(codec), StampBytes(x), [0x80]);
  }

  lemma Regroup(a: Bytes, b: Bytes, c: Bytes, d: Bytes, e: Bytes, f: Bytes)
    ensures a + b + c + d + e + f == a + (b + c + (d + e) + f)
  {
  }

  /** rss_sei_build_timestamp: the bytes written, or an error that leaves the
      buffer as it was. */
  method BuildTimestamp(dst: array<bv8>, codec: int, prefix: int, utc: bv64, status: bv8) returns (r: Result<nat>)
    modifies dst
    ensures match Build(dst.Length, codec, prefix, Stamp(utc, status))
            case Err(e) => r == Err(e) && dst[..] == old(dst[..])
            case Ok(bytes) => r == Ok(|bytes|) && |bytes| <= dst.Length
                              && dst[..|bytes|] == bytes && dst[|bytes|..] == old(dst[|bytes|..])
  {
    hide Uuid, StampBytes;
    if codec != H264 && codec != H265 {
      return Err(EINVAL);
    }
    var nalLen := (if codec == H264 then 1 else 2) + 1 + 1 + PAYLOAD_SIZE + 1;
    var total := (if prefix == PREFIX_NONE then 0 else 4) + nalLen;
    if dst.Length < total {
      return Err(ENOSPC);
    }
    var p := 0;
    assert dst[..0] == [];
    if prefix == PREFIX_ANNEXB {
      p := PutBytes(dst, p, [0x00, 0x00, 0x00, 0x01]);
    } else if prefix == PREFIX_AVCC {
      p := PutBytes(dst, p, [0, 0, 0, nalLen as bv8]);
    } else if prefix != PREFIX_NONE {
      return Err(EINVAL);
    }
    assert dst[..p] == Prefix(codec, prefix);
    p := PutNal(dst, p, codec, Stamp(utc, status));
    r := Ok(total);
  }

  // ---- the parser

  // Bytes of FF and the one that ends them
  method ReadVar(nal: Bytes, p0: nat) returns (r: Result<(nat, nat)>)
    requires p0 <= |nal|
    ensures r == VarAt(nal, p0, 0)
  {
    var p, sum: nat := p0, 0;
    while p < |nal| && nal[p] == 0xff
      invariant p <= |nal|
      invariant VarAt(nal, p, sum) == VarAt(nal, p0, 0)
    {
      sum := Wrap32(sum + 255);
      p := p + 1;
    }
    if p >= |nal| {
      return Err(ENOENT);
    }
    r := Ok((p + 1, Wrap32(sum + nal[p] as nat)));
  }

  method OnlyZeros(nal: Bytes, p: nat) returns (zero: bool)
    requires p <= |nal|
    ensures zero <==> ZeroFrom(nal, p)
  {
    var q := p;
    while q < |nal| && nal[q] == 0
      invariant p <= q <= |nal|
      invariant forall i | p <= i < q :: nal[i] == 0
    {
      q := q + 1;
    }
    zero := q == |nal|;
  }

  /** rss_sei_parse_timestamp */
  method ParseTimestamp(nal: Bytes, codec: int) returns (r: Result<Stamp>)
    ensures r == Parse(nal, codec)
  {
    hide VarAt, Uuid, ZeroFrom, TimeOf;
    if codec == H264 {
      if |nal| < 1 || nal[0] & 0x1f != 6 {
        return Err(ENOENT);
      }
    } else if codec == H265 {
      if |nal| < 2 || (nal[0] >> 1) & 0x3f != 39 {
        return Err(ENOENT);
      }
    } else {
      return Err(EINVAL);
    }
    var p := HeaderLen(codec);
    while p < |nal|
      invariant p <= |nal|
      invariant Walk(nal, p, codec) == Walk(nal, HeaderLen(codec), codec)
      decreases |nal| - p
    {
      if nal[p] == 0x80 {
        var zero := OnlyZeros(nal, p + 1);
        if zero {
          break;
        }
      }
      var v := ReadVar(nal, p);
      if v.Err? {
        return Err(v.error);
      }
      var (q, kind) := v.value;
      v := ReadVar(nal, q);
      if v.Err? {
        return Err(v.error);
      }
      var (d, size) := v.value;
      if |nal| - d < size {
        return Err(ENOENT);
      }
      if kind == UDU && size >= PAYLOAD_SIZE && nal[d..d + 16] == Uuid(codec) {
        assert nal[d..d + size][..16] == nal[d..d + 16];
        var s := nal[d + 16..d + size];
        if s[3] != 0xff || s[6] != 0xff || s[9] != 0xff {
          return Err(EBADMSG);
        }
        return Ok(Stamp(TimeOf(s), s[0]));
      }
      assert size >= PAYLOAD_SIZE ==> nal[d..d + size][..16] == nal[d..d + 16];
      p := d + size;
    }
    r := Err(ENOENT);
  }
}
