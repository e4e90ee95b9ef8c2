/** The walks through an H.264 or H.265 SPS up to the video_full_range_flag:
    what every walker reads, as functions on bits, and the walkers themselves. */
module VuiWalk {
  import opened Basics
  import opened VuiEscape
  import opened VuiBits

  datatype Walk = Found(bit: nat) | Absent | Bad

  // The return value of a walker
  function CodeOf(w: Walk): int {
    match w
    case Found(bit) => bit
    case Absent => -2
    case Bad => -1
  }

  function SkipU(bs: Bits, c: Cur, n: nat): (d: Cur)
    ensures d.bit >= c.bit
  {
    Read(bs, c, n).0
  }

  function SkipUe(bs: Bits, c: Cur): (d: Cur)
    ensures d.bit >= c.bit
  {
    Ue(bs, c).0
  }

  function SkipUes(bs: Bits, c: Cur, n: nat): (d: Cur)
    ensures d.bit >= c.bit
    decreases n
  {
    if n == 0 then c else SkipUes(bs, SkipUe(bs, c), n - 1)
  }

  function SkipSes(bs: Bits, c: Cur, n: nat): (d: Cur)
    ensures d.bit >= c.bit
    decreases n
  {
    if n == 0 then c else SkipSes(bs, Se(bs, c).0, n - 1)
  }

  // A flag, and n more bits when it is set
  function SkipIf(bs: Bits, c: Cur, n: nat): (d: Cur)
    ensures d.bit >= c.bit
  {
    var (d, f) := Read(bs, c, 1);
    if f != 0 then SkipU(bs, d, n) else d
  }

  // ---- H.264, section 7.3.2.1.1

  // C's remainder, which has the sign of the dividend
  function Rem256(a: int): int {
    if a >= 0 then a % 256 else -((-a) % 256)
  }

  // h264_scaling_list from entry j on
  function ScalingList(bs: Bits, c: Cur, j: nat, size: nat, last: int, next: int): (d: Cur)
    ensures d.bit >= c.bit
    decreases size - j
  {
    if j >= size then c
    else if next == 0 then ScalingList(bs, c, j + 1, size, last, 0)
    else
      var (d, delta) := Se(bs, c);
      var n := Rem256(last + delta + 256);
      ScalingList(bs, d, j + 1, size, if n == 0 then last else n, n)
  }

  function ListSize(i: nat): nat {
    if i < 6 then 16 else 64
  }

  function ScalingLists(bs: Bits, c: Cur, i: nat, lists: nat): (d: Cur)
    ensures d.bit >= c.bit
    decreases lists - i
  {
    if i >= lists then c
    else
      var (d, present) := Read(bs, c, 1);
      var e := if present != 0 then ScalingList(bs, d, 0, ListSize(i), 8, 8) else d;
      ScalingLists(bs, e, i + 1, lists)
  }

  predicate HighProfile(profile: nat) {
    profile in {100, 110, 122, 244, 44, 83, 86, 118, 128, 138, 139, 134, 135}
  }

  function HighPart(bs: Bits, c: Cur): (d: Cur)
    ensures d.bit >= c.bit
  {
    var (c1, chroma) := Ue(bs, c);
    var c2 := if chroma == 3 then SkipU(bs, c1, 1) else c1;
    var c3 := SkipU(bs, SkipUe(bs, SkipUe(bs, c2)), 1);
    var (c4, matrix) := Read(bs, c3, 1);
    if matrix != 0 then ScalingLists(bs, c4, 0, if chroma == 3 then 12 else 8) else c4
  }

  // Frame number and picture order count; None when a count is out of range
  datatype Step = Go(c: Cur) | Stop

  function PocPart(bs: Bits, c: Cur): (s: Step)
    ensures s.Go? ==> s.c.bit >= c.bit
  {
    var c1 := SkipUe(bs, c);
    var (c2, kind) := Ue(bs, c1);
    if kind == 0 then Go(SkipUe(bs, c2))
    else if kind == 1 then
      var c3 := SkipSes(bs, SkipU(bs, c2, 1), 2);
      var (c4, n) := Ue(bs, c3);
      if n > 255 then Stop else Go(SkipSes(bs, c4, n))
    else Go(c2)
  }

  function FramePart(bs: Bits, c: Cur): (d: Cur)
    ensures d.bit >= c.bit
  {
    var c1 := SkipU(bs, SkipUe(bs, c), 1);
    var (c2, frameOnly) := Read(bs, SkipUes(bs, c1, 2), 1);
    var c3 := if frameOnly == 0 then SkipU(bs, c2, 1) else c2;
    var (c4, crop) := Read(bs, SkipU(bs, c3, 1), 1);
    if crop != 0 then SkipUes(bs, c4, 4) else c4
  }

  // From vui_parameters_present_flag to video_full_range_flag, both standards
  function AspectPart(bs: Bits, c: Cur): (d: Cur)
    ensures d.bit >= c.bit
  {
    var (c1, present) := Read(bs, c, 1);
    if present == 0 then c1
    else
      var (c2, idc) := Read(bs, c1, 8);
      if idc == 255 then SkipU(bs, SkipU(bs, c2, 16), 16) else c2
  }

  function VuiPart(bs: Bits, c: Cur): Walk {
    var (c1, vui) := Read(bs, c, 1);
    if vui == 0 then (if c1.overflow then Bad else Absent)
    else
      var c2 := SkipIf(bs, AspectPart(bs, c1), 1);
      var (c3, signal) := Read(bs, c2, 1);
      if signal == 0 then (if c3.overflow then Bad else Absent)
      else
        var c4 := SkipU(bs, c3, 3);
        if c4.overflow then Bad else Found(c4.bit)
  }

  const START := Cur(0, false)

  function HeadPart(bs: Bits): (r: (Cur, nat)) {
    var (c1, profile) := Read(bs, START, 8);
    (SkipUe(bs, SkipU(bs, SkipU(bs, c1, 8), 8)), profile)
  }

  // h264_full_range_bit
  function H264Walk(bs: Bits): Walk {
    var (c1, profile) := HeadPart(bs);
    var c2 := if HighProfile(profile) then HighPart(bs, c1) else c1;
    match PocPart(bs, c2)
    case Stop => Bad
    case Go(c3) => VuiPart(bs, FramePart(bs, c3))
  }

  // ---- H.265, sections 7.3.2.2.1, 7.3.3, 7.3.4 and 7.3.7

  function SubLayerFlags(bs: Bits, c: Cur, n: nat): (r: (Cur, seq<(nat, nat)>))
    ensures r.0.bit >= c.bit && |r.1| == n
    decreases n
  {
    if n == 0 then (c, [])
    else
      var (c1, profile) := Read(bs, c, 1);
      var (c2, level) := Read(bs, c1, 1);
      var (c3, rest) := SubLayerFlags(bs, c2, n - 1);
      (c3, [(profile, level)] + rest)
  }

  function SkipMany(bs: Bits, c: Cur, bits: nat, n: nat): (d: Cur)
    ensures d.bit >= c.bit
    decreases n
  {
    if n == 0 then c else SkipMany(bs, SkipU(bs, c, bits), bits, n - 1)
  }

  function ProfileBlock(bs: Bits, c: Cur): (d: Cur)
    ensures d.bit >= c.bit
  {
    SkipU(bs, SkipU(bs, SkipU(bs, SkipU(bs, c, 8), 32), 32), 16)
  }

  function SubLayers(bs: Bits, c: Cur, flags: seq<(nat, nat)>): (d: Cur)
    ensures d.bit >= c.bit
    decreases |flags|
  {
    if flags == [] then c
    else
      var c1 := if flags[0].0 != 0 then ProfileBlock(bs, c) else c;
      var c2 := if flags[0].1 != 0 then SkipU(bs, c1, 8) else c1;
      SubLayers(bs, c2, flags[1..])
  }

  // h265_profile_tier_level; the layer count comes from three bits
  function ProfileTierLevel(bs: Bits, c: Cur, layers: nat): (d: Cur)
    requires layers < 8
    ensures d.bit >= c.bit
  {
    var c1 := SkipU(bs, ProfileBlock(bs, c), 8);
    var (c2, flags) := SubLayerFlags(bs, c1, layers);
    var c3 := if layers > 0 then SkipMany(bs, c2, 2, 8 - layers) else c2;
    SubLayers(bs, c3, flags)
  }

  function Coefs(sizeId: nat): nat {
    if sizeId == 0 then 16 else 64
  }

  function ScalingMatrix(bs: Bits, c: Cur, sizeId: nat): (d: Cur)
    ensures d.bit >= c.bit
  {
    var (c1, mode) := Read(bs, c, 1);
    if mode == 0 then SkipUe(bs, c1)
    else
      var c2 := if sizeId > 1 then Se(bs, c1).0 else c1;
      SkipSes(bs, c2, Coefs(sizeId))
  }

  function Matrices(sizeId: nat): nat {
    if sizeId == 3 then 2 else 6
  }

  function MatrixRow(bs: Bits, c: Cur, sizeId: nat, n: nat): (d: Cur)
    ensures d.bit >= c.bit
    decreases n
  {
    if n == 0 then c else MatrixRow(bs, ScalingMatrix(bs, c, sizeId), sizeId, n - 1)
  }

  // h265_scaling_list_data from a size on
  function ScalingData(bs: Bits, c: Cur, sizeId: nat): (d: Cur)
    ensures d.bit >= c.bit
    decreases 4 - sizeId
  {
    if sizeId >= 4 then c else ScalingData(bs, MatrixRow(bs, c, sizeId, Matrices(sizeId)), sizeId + 1)
  }

  // Used flags of an inter-predicted set: n entries, counting the kept ones
  function InterEntries(bs: Bits, c: Cur, n: nat, kept: nat): (r: (Cur, nat))
    ensures r.0.bit >= c.bit
    decreases n
  {
    if n == 0 then (c, kept)
    else
      var (c1, used) := Read(bs, c, 1);
      var (c2, delta) := if used == 0 then Read(bs, c1, 1) else (c1, 1);
      InterEntries(bs, c2, n - 1, if used != 0 || delta != 0 then kept + 1 else kept)
  }

  function Pairs(bs: Bits, c: Cur, n: nat): (d: Cur)
    ensures d.bit >= c.bit
    decreases n
  {
    if n == 0 then c else Pairs(bs, SkipU(bs, SkipUe(bs, c), 1), n - 1)
  }

  // One short-term set: its entry count, or nothing when it is rejected
  datatype SetStep = Counted(c: Cur, pocs: nat) | Rejected

  function RefPicSet(bs: Bits, c: Cur, done: seq<nat>): (s: SetStep)
    ensures s.Counted? ==> s.c.bit >= c.bit
  {
    var (c1, inter) := if done != [] then Read(bs, c, 1) else (c, 0);
    if inter != 0 then
      var c2 := SkipUe(bs, SkipU(bs, c1, 1));
      var (c3, kept) := InterEntries(bs, c2, done[|done| - 1] + 1, 0);
      if c3.overflow then Rejected else Counted(c3, kept)
    else
      var (c2, neg) := Ue(bs, c1);
      var (c3, pos) := Ue(bs, c2);
      if neg > 64 || pos > 64 then Rejected
      else
        var c4 := Pairs(bs, Pairs(bs, c3, neg), pos);
        if c4.overflow then Rejected else Counted(c4, neg + pos)
  }

  function RefPicSets(bs: Bits, c: Cur, n: nat, done: seq<nat>): (s: Step)
    ensures s.Go? ==> s.c.bit >= c.bit
    decreases n
  {
    if n == 0 then Go(c)
    else
      match RefPicSet(bs, c, done)
      case Rejected => Stop
      case Counted(d, pocs) => RefPicSets(bs, d, n - 1, done + [pocs])
  }

  // The length vb_read gets for a lt_ref_pic_poc_lsb: (int)(log2 + 4)
  function PocLsbBits(log2: nat): nat {
    var v := Wrap(log2 + 4);
    if 0 <= v < 0x8000_0000 then v else 0
  }

  function LongTerm(bs: Bits, c: Cur, bits: nat, n: nat): (d: Cur)
    ensures d.bit >= c.bit
    decreases n
  {
    if n == 0 then c else LongTerm(bs, SkipU(bs, SkipU(bs, c, bits), 1), bits, n - 1)
  }

  function SizePart(bs: Bits, c: Cur): (d: Cur)
    ensures d.bit >= c.bit
  {
    var (c1, chroma) := Ue(bs, SkipUe(bs, c));
    var c2 := if chroma == 3 then SkipU(bs, c1, 1) else c1;
    var (c3, window) := Read(bs, SkipUes(bs, c2, 2), 1);
    var c4 := if window != 0 then SkipUes(bs, c3, 4) else c3;
    SkipUes(bs, c4, 2)
  }

  function CodingPart(bs: Bits, c: Cur): (d: Cur)
    ensures d.bit >= c.bit
  {
    var (c1, lists) := Read(bs, SkipUes(bs, c, 6), 1);
    var c2 := ListsPart(bs, c1, lists);
    var (c3, pcm) := Read(bs, SkipU(bs, SkipU(bs, c2, 1), 1), 1);
    if pcm != 0 then SkipU(bs, SkipUes(bs, SkipU(bs, SkipU(bs, c3, 4), 4), 2), 1) else c3
  }

  function ListsPart(bs: Bits, c: Cur, lists: nat): (d: Cur)
    ensures d.bit >= c.bit
  {
    if lists == 0 then c
    else
      var (c1, data) := Read(bs, c, 1);
      if data != 0 then ScalingData(bs, c1, 0) else c1
  }

  function RefPart(bs: Bits, c: Cur, log2: nat): (s: Step)
    ensures s.Go? ==> s.c.bit >= c.bit
  {
    var (c1, sets) := Ue(bs, c);
    if sets > 64 then Stop
    else
      match RefPicSets(bs, c1, sets, [])
      case Stop => Stop
      case Go(c2) => LongPart(bs, c2, log2)
  }

  function LongPart(bs: Bits, c: Cur, log2: nat): (s: Step)
    ensures s.Go? ==> s.c.bit >= c.bit
  {
    var (c1, present) := Read(bs, c, 1);
    if present == 0 then Go(c1)
    else
      var (c2, n) := Ue(bs, c1);
      if n > 32 then Stop else Go(LongTerm(bs, c2, PocLsbBits(log2), n))
  }

  lemma LayersAreFew(bs: Bits, c: Cur)
    ensures Read(bs, c, 3).1 < 8
  {
    if c.bit < |bs| {
      var c1 := c.(bit := c.bit + 1);
      var v1 := Wrap(2 * 0 + (if bs[c.bit] then 1 else 0));
      assert ReadOn(bs, c, 3, 0) == ReadOn(bs, c1, 2, v1);
      if c1.bit < |bs| {
        var c2 := c1.(bit := c1.bit + 1);
        var v2 := Wrap(2 * v1 + (if bs[c1.bit] then 1 else 0));
        assert ReadOn(bs, c1, 2, v1) == ReadOn(bs, c2, 1, v2);
      }
    }
  }

  // The header and profile part, and the number of sub-layers less one
  function LayerPart(bs: Bits): (r: (Cur, nat))
    ensures r.1 < 8
  {
    var c0 := SkipU(bs, START, 4);
    LayersAreFew(bs, c0);
    var (c1, layers) := Read(bs, c0, 3);
    (ProfileTierLevel(bs, SkipU(bs, c1, 1), layers), layers)
  }

  // Sizes to PCM, and log2_max_pic_order_cnt_lsb_minus4
  function OrderPart(bs: Bits, c: Cur, layers: nat): (r: (Cur, nat))
    ensures r.0.bit >= c.bit
  {
    var (c1, log2) := Ue(bs, SizePart(bs, c));
    var (c2, ordering) := Read(bs, c1, 1);
    (CodingPart(bs, SkipUes(bs, c2, 3 * (if ordering != 0 then layers + 1 else 1))), log2)
  }

  // h265_full_range_bit
  function H265Walk(bs: Bits): Walk {
    var (c0, layers) := LayerPart(bs);
    var (c1, log2) := OrderPart(bs, c0, layers);
    match RefPart(bs, c1, log2)
    case Stop => Bad
    case Go(c2) => VuiPart(bs, SkipU(bs, SkipU(bs, c2, 1), 1))
  }

  function FullRangeWalk(bs: Bits, h265: bool): Walk {
    if h265 then H265Walk(bs) else H264Walk(bs)
  }

  // ---- from the flag to matrix_coefficients

  // vui_matrix_bit
  function MatrixWalk(bs: Bits, flag: nat): Walk {
    var (c1, colour) := Read(bs, SkipU(bs, Cur(flag, false), 1), 1);
    if colour == 0 then (if c1.overflow then Bad else Absent)
    else
      var c2 := SkipU(bs, SkipU(bs, c1, 8), 8);
      if c2.overflow then Bad else Found(c2.bit)
  }
}
