/** The SPS walkers over the bit cursor, each proved to read what its function
    in VuiWalk reads. */
module VuiWalkers {
  import opened VuiEscape
  import opened VuiBits
  import opened VuiWalk

  // ---- straight runs of reads, as the walkers make them

  method Skip(b: BitReader, n: nat)
    requires b.Valid()
    modifies b
    ensures b.Cursor() == SkipU(b.Bits(), old(b.Cursor()), n)
  {
    hide Read;
    var v := b.VbRead(n);
  }

  method UeTimes(b: BitReader, n: nat)
    requires b.Valid()
    modifies b
    ensures b.Cursor() == SkipUes(b.Bits(), old(b.Cursor()), n)
  {
    hide Ue;
    ghost var bs := b.Bits();
    for i := 0 to n
      invariant SkipUes(bs, b.Cursor(), n - i) == SkipUes(bs, old(b.Cursor()), n)
    {
      var v := b.VbUe();
    }
  }

  method SeTimes(b: BitReader, n: nat)
    requires b.Valid()
    modifies b
    ensures b.Cursor() == SkipSes(b.Bits(), old(b.Cursor()), n)
  {
    hide Se;
    ghost var bs := b.Bits();
    for i := 0 to n
      invariant SkipSes(bs, b.Cursor(), n - i) == SkipSes(bs, old(b.Cursor()), n)
    {
      var v := b.VbSe();
    }
  }

  // ---- H.264

  method H264ScalingList(b: BitReader, size: nat)
    requires b.Valid()
    modifies b
    ensures b.Cursor() == ScalingList(b.Bits(), old(b.Cursor()), 0, size, 8, 8)
  {
    hide Se, Rem256;
    ghost var bs := b.Bits();
    var last, next := 8, 8;
    for j := 0 to size
      invariant ScalingList(bs, b.Cursor(), j, size, last, next) == ScalingList(bs, old(b.Cursor()), 0, size, 8, 8)
    {
      if next != 0 {
        var delta := b.VbSe();
        next := Rem256(last + delta + 256);
      }
      last := if next == 0 then last else next;
    }
  }

  method H264ScalingMatrix(b: BitReader, lists: nat)
    requires b.Valid()
    modifies b
    ensures b.Cursor() == ScalingLists(b.Bits(), old(b.Cursor()), 0, lists)
  {
    hide Read, ScalingList;
    ghost var bs := b.Bits();
    for i := 0 to lists
      invariant ScalingLists(bs, b.Cursor(), i, lists) == ScalingLists(bs, old(b.Cursor()), 0, lists)
    {
      var present := b.VbRead(1);
      if present != 0 {
        H264ScalingList(b, if i < 6 then 16 else 64);
      }
    }
  }

  method H264HighProfile(b: BitReader)
    requires b.Valid()
    modifies b
    ensures b.Cursor() == HighPart(b.Bits(), old(b.Cursor()))
  {
    hide Read, Ue, ScalingLists;
    ghost var bs := b.Bits();
    var chroma := b.VbUe();
    if chroma == 3 {
      Skip(b, 1);
    }
    var lumaDepth := b.VbUe();
    var chromaDepth := b.VbUe();
    Skip(b, 1);
    var matrix := b.VbRead(1);
    if matrix != 0 {
      H264ScalingMatrix(b, if chroma == 3 then 12 else 8);
    }
  }

  // False when the walk is given up
  method H264PicOrder(b: BitReader) returns (ok: bool)
    requires b.Valid()
    modifies b
    ensures ok <==> PocPart(b.Bits(), old(b.Cursor())).Go?
    ensures ok ==> PocPart(b.Bits(), old(b.Cursor())) == Go(b.Cursor())
  {
    hide Read, Ue, Se;
    ghost var bs := b.Bits();
    var log2 := b.VbUe();
    var kind := b.VbUe();
    ok := true;
    if kind == 0 {
      log2 := b.VbUe();
    } else if kind == 1 {
      Skip(b, 1);
      SeTimes(b, 2);
      var n := b.VbUe();
      if n > 255 {
        return false;
      }
      SeTimes(b, n);
    }
  }

  method H264Frame(b: BitReader)
    requires b.Valid()
    modifies b
    ensures b.Cursor() == FramePart(b.Bits(), old(b.Cursor()))
  {
    hide Read, Ue, SkipUes;
    ghost var bs := b.Bits();
    var refs := b.VbUe();
    Skip(b, 1);
    UeTimes(b, 2);
    var frameOnly := b.VbRead(1);
    if frameOnly == 0 {
      Skip(b, 1);
    }
    Skip(b, 1);
    var crop := b.VbRead(1);
    if crop != 0 {
      UeTimes(b, 4);
    }
  }

  method Aspect(b: BitReader)
    requires b.Valid()
    modifies b
    ensures b.Cursor() == AspectPart(b.Bits(), old(b.Cursor()))
  {
    hide Read;
    ghost var bs := b.Bits();
    var present := b.VbRead(1);
    if present != 0 {
      var idc := b.VbRead(8);
      if idc == 255 {
        Skip(b, 16);
        Skip(b, 16);
      }
    }
  }

  method Overscan(b: BitReader)
    requires b.Valid()
    modifies b
    ensures b.Cursor() == SkipIf(b.Bits(), old(b.Cursor()), 1)
  {
    hide Read;
    ghost var bs := b.Bits();
    var present := b.VbRead(1);
    if present != 0 {
      Skip(b, 1);
    }
  }

  // The VUI up to the flag: its offset, -1 or -2
  method VuiFlag(b: BitReader) returns (bit: int)
    requires b.Valid()
    modifies b
    ensures bit == CodeOf(VuiPart(b.Bits(), old(b.Cursor())))
  {
    hide Read, AspectPart, SkipIf;
    ghost var bs := b.Bits();
    var vui := b.VbRead(1);
    if vui == 0 {
      return if b.overflow then -1 else -2;
    }
    Aspect(b);
    Overscan(b);
    var signal := b.VbRead(1);
    if signal == 0 {
      return if b.overflow then -1 else -2;
    }
    Skip(b, 3);
    if b.overflow {
      return -1;
    }
    bit := b.bit;
  }

  method H264FullRangeBit(b: BitReader) returns (bit: int)
    requires b.Valid() && b.Cursor() == START
    modifies b
    ensures bit == CodeOf(H264Walk(b.Bits()))
  {
    hide Read, Ue, HighPart, PocPart, FramePart, VuiPart;
    ghost var bs := b.Bits();
    var profile := b.VbRead(8);
    Skip(b, 8);
    Skip(b, 8);
    var id := b.VbUe();
    if HighProfile(profile) {
      H264HighProfile(b);
    }
    var ok := H264PicOrder(b);
    if !ok {
      return -1;
    }
    H264Frame(b);
    bit := VuiFlag(b);
  }

  // ---- H.265

  method ProfileFields(b: BitReader)
    requires b.Valid()
    modifies b
    ensures b.Cursor() == ProfileBlock(b.Bits(), old(b.Cursor()))
  {
    hide SkipU;
    ghost var bs := b.Bits();
    Skip(b, 8);
    Skip(b, 32);
    Skip(b, 32);
    Skip(b, 16);
  }

  // Which sub-layers carry a profile and a level
  method PresentFlags(b: BitReader, layers: nat, profile: array<nat>, level: array<nat>)
    requires b.Valid() && layers <= profile.Length == level.Length && profile != level
    requires b.buf as object !in {profile as object, level as object}
    modifies b, profile, level
    ensures var (c, flags) := SubLayerFlags(b.Bits(), old(b.Cursor()), layers);
            && b.Cursor() == c
            && forall i | 0 <= i < layers :: (profile[i], level[i]) == flags[i]
  {
    hide Read;
    ghost var bs, start := b.Bits(), b.Cursor();
    ghost var seen: seq<(nat, nat)> := [];
    ghost var whole := SubLayerFlags(bs, start, layers);
    var i := 0;
    while i < layers
      invariant i <= layers && |seen| == i
      invariant forall j | 0 <= j < i :: (profile[j], level[j]) == seen[j]
      invariant whole.0 == SubLayerFlags(bs, b.Cursor(), layers - i).0
      invariant whole.1 == seen + SubLayerFlags(bs, b.Cursor(), layers - i).1
    {
      FlagsStep(bs, b.Cursor(), layers - i, seen, whole);
      profile[i] := b.VbRead(1);
      level[i] := b.VbRead(1);
      seen := seen + [(profile[i], level[i])];
      i := i + 1;
    }
  }

  lemma FlagsStep(bs: Bits, c: Cur, n: nat, seen: seq<(nat, nat)>, whole: (Cur, seq<(nat, nat)>))
    requires n > 0 && whole.0 == SubLayerFlags(bs, c, n).0 && whole.1 == seen + SubLayerFlags(bs, c, n).1
    ensures var (c1, profile) := Read(bs, c, 1);
            var (c2, level) := Read(bs, c1, 1);
            var (c3, rest) := SubLayerFlags(bs, c2, n - 1);
            whole.0 == c3 && whole.1 == seen + [(profile, level)] + rest
  {
    hide Read;
    var (c1, profile) := Read(bs, c, 1);
    var (c2, level) := Read(bs, c1, 1);
    var (c3, rest) := SubLayerFlags(bs, c2, n - 1);
    assert seen + ([(profile, level)] + rest) == seen + [(profile, level)] + rest;
  }

  method H265ProfileTierLevel(b: BitReader, layers: nat)
    requires b.Valid() && layers < 8
    modifies b
    ensures b.Cursor() == ProfileTierLevel(b.Bits(), old(b.Cursor()), layers)
  {
    hide SkipU, ProfileBlock, SubLayerFlags;
    ghost var bs := b.Bits();
    ProfileFields(b);
    Skip(b, 8);
    var profile, level := new nat[8], new nat[8];
    ghost var (c2, flags) := SubLayerFlags(bs, b.Cursor(), layers);
    PresentFlags(b, layers, profile, level);
    if layers > 0 {
      Reserved(b, 8 - layers);
    }
    ghost var c3 := b.Cursor();
    for i := 0 to layers
      invariant SubLayers(bs, b.Cursor(), flags[i..]) == SubLayers(bs, c3, flags)
      modifies b
    {
      assert flags[i..][0] == flags[i] == (profile[i], level[i]) && flags[i..][1..] == flags[i + 1..];
      if profile[i] != 0 {
        ProfileFields(b);
      }
      if level[i] != 0 {
        Skip(b, 8);
      }
    }
  }

  method Reserved(b: BitReader, n: nat)
    requires b.Valid()
    modifies b
    ensures b.Cursor() == SkipMany(b.Bits(), old(b.Cursor()), 2, n)
  {
    hide SkipU;
    ghost var bs := b.Bits();
    for i := 0 to n
      invariant SkipMany(bs, b.Cursor(), 2, n - i) == SkipMany(bs, old(b.Cursor()), 2, n)
    {
      Skip(b, 2);
    }
  }

  method H265ScalingMatrix(b: BitReader, sizeId: nat)
    requires b.Valid()
    modifies b
    ensures b.Cursor() == ScalingMatrix(b.Bits(), old(b.Cursor()), sizeId)
  {
    hide Read, Ue, Se, SkipSes;
    ghost var bs := b.Bits();
    var mode := b.VbRead(1);
    if mode == 0 {
      var delta := b.VbUe();
    } else {
      if sizeId > 1 {
        var dc := b.VbSe();
      }
      SeTimes(b, Coefs(sizeId));
    }
  }

  method H265ScalingListData(b: BitReader)
    requires b.Valid()
    modifies b
    ensures b.Cursor() == ScalingData(b.Bits(), old(b.Cursor()), 0)
  {
    hide ScalingMatrix;
    ghost var bs := b.Bits();
    for sizeId := 0 to 4
      invariant ScalingData(bs, b.Cursor(), sizeId) == ScalingData(bs, old(b.Cursor()), 0)
    {
      ghost var row := b.Cursor();
      var n := Matrices(sizeId);
      for matrixId := 0 to n
        invariant MatrixRow(bs, b.Cursor(), sizeId, n - matrixId) == MatrixRow(bs, row, sizeId, n)
      {
        H265ScalingMatrix(b, sizeId);
      }
    }
  }

  method UsedFlags(b: BitReader, prev: nat) returns (kept: nat)
    requires b.Valid()
    modifies b
    ensures (b.Cursor(), kept) == InterEntries(b.Bits(), old(b.Cursor()), prev + 1, 0)
  {
    hide Read;
    ghost var bs := b.Bits();
    kept := 0;
    for j := 0 to prev + 1
      invariant InterEntries(bs, b.Cursor(), prev + 1 - j, kept) == InterEntries(bs, old(b.Cursor()), prev + 1, 0)
    {
      var used := b.VbRead(1);
      var delta := 1;
      if used == 0 {
        delta := b.VbRead(1);
      }
      if used != 0 || delta != 0 {
        kept := kept + 1;
      }
    }
  }

  method DeltaPairs(b: BitReader, n: nat)
    requires b.Valid()
    modifies b
    ensures b.Cursor() == Pairs(b.Bits(), old(b.Cursor()), n)
  {
    hide Read, Ue;
    ghost var bs := b.Bits();
    for j := 0 to n
      invariant Pairs(bs, b.Cursor(), n - j) == Pairs(bs, old(b.Cursor()), n)
    {
      var delta := b.VbUe();
      Skip(b, 1);
    }
  }

  method InterSet(b: BitReader, prev: nat) returns (kept: nat)
    requires b.Valid()
    modifies b
    ensures var c := SkipUe(b.Bits(), SkipU(b.Bits(), old(b.Cursor()), 1));
            (b.Cursor(), kept) == InterEntries(b.Bits(), c, prev + 1, 0)
  {
    hide Read, Ue, InterEntries;
    Skip(b, 1);
    var abs := b.VbUe();
    kept := UsedFlags(b, prev);
  }

  // The set's entry count goes into pocs[idx]; false when it is rejected.
  method H265StRefPicSet(b: BitReader, idx: nat, pocs: array<nat>) returns (ok: bool)
    requires b.Valid() && idx < pocs.Length && pocs as object != b.buf as object
    modifies b, pocs
    ensures forall i | 0 <= i < idx :: pocs[i] == old(pocs[i])
    ensures var s := RefPicSet(b.Bits(), old(b.Cursor()), old(pocs[..idx]));
            && (ok <==> s.Counted?)
            && (ok ==> s == Counted(b.Cursor(), pocs[idx]))
  {
    hide Read, Ue, SkipU, SkipUe, InterEntries, Pairs;
    ghost var bs, done := b.Bits(), pocs[..idx];
    ghost var step := RefPicSet(bs, b.Cursor(), done);
    assert idx != 0 <==> done != [];
    var inter := 0;
    if idx != 0 {
      assert done[|done| - 1] == pocs[idx - 1];
      inter := b.VbRead(1);
    }
    if inter != 0 {
      var kept := InterSet(b, pocs[idx - 1]);
      assert step == if b.overflow then Rejected else Counted(b.Cursor(), kept);
      pocs[idx] := kept;
    } else {
      var neg := b.VbUe();
      var pos := b.VbUe();
      if neg > 64 || pos > 64 {
        return false;
      }
      DeltaPairs(b, neg);
      DeltaPairs(b, pos);
      assert step == if b.overflow then Rejected else Counted(b.Cursor(), neg + pos);
      pocs[idx] := neg + pos;
    }
    ok := !b.overflow;
  }

  method RefSets(b: BitReader, sets: nat) returns (ok: bool)
    requires b.Valid() && sets <= 64
    modifies b
    ensures ok <==> RefPicSets(b.Bits(), old(b.Cursor()), sets, []).Go?
    ensures ok ==> RefPicSets(b.Bits(), old(b.Cursor()), sets, []) == Go(b.Cursor())
  {
    hide RefPicSet;
    ghost var bs := b.Bits();
    var pocs := new nat[64](_ => 0);
    assert pocs[..0] == [];
    var i := 0;
    while i < sets
      invariant i <= sets
      invariant RefPicSets(bs, b.Cursor(), sets - i, pocs[..i]) == RefPicSets(bs, old(b.Cursor()), sets, [])
    {
      ghost var done := pocs[..i];
      ok := H265StRefPicSet(b, i, pocs);
      if !ok {
        return;
      }
      assert pocs[..i + 1] == done + [pocs[i]];
      i := i + 1;
    }
    ok := true;
  }

  method LongTermRefs(b: BitReader, log2: nat) returns (ok: bool)
    requires b.Valid()
    modifies b
    ensures ok <==> LongPart(b.Bits(), old(b.Cursor()), log2).Go?
    ensures ok ==> LongPart(b.Bits(), old(b.Cursor()), log2) == Go(b.Cursor())
  {
    hide Read, Ue;
    ghost var bs := b.Bits();
    var present := b.VbRead(1);
    if present != 0 {
      var n := b.VbUe();
      if n > 32 {
        return false;
      }
      ghost var c := b.Cursor();
      for i := 0 to n
        invariant LongTerm(bs, b.Cursor(), PocLsbBits(log2), n - i) == LongTerm(bs, c, PocLsbBits(log2), n)
      {
        Skip(b, PocLsbBits(log2));
        Skip(b, 1);
      }
    }
    ok := true;
  }

  method References(b: BitReader, log2: nat) returns (ok: bool)
    requires b.Valid()
    modifies b
    ensures ok <==> RefPart(b.Bits(), old(b.Cursor()), log2).Go?
    ensures ok ==> RefPart(b.Bits(), old(b.Cursor()), log2) == Go(b.Cursor())
  {
    hide Ue, RefPicSets, LongPart;
    var sets := b.VbUe();
    if sets > 64 {
      return false;
    }
    ok := RefSets(b, sets);
    if ok {
      ok := LongTermRefs(b, log2);
    }
  }

  method Sizes(b: BitReader)
    requires b.Valid()
    modifies b
    ensures b.Cursor() == SizePart(b.Bits(), old(b.Cursor()))
  {
    hide Read, Ue, SkipUes;
    ghost var bs := b.Bits();
    var id := b.VbUe();
    var chroma := b.VbUe();
    if chroma == 3 {
      Skip(b, 1);
    }
    UeTimes(b, 2);
    var window := b.VbRead(1);
    if window != 0 {
      UeTimes(b, 4);
    }
    UeTimes(b, 2);
  }

  method ScalingLists265(b: BitReader)
    requires b.Valid()
    modifies b
    ensures var (c1, lists) := Read(b.Bits(), old(b.Cursor()), 1);
            b.Cursor() == ListsPart(b.Bits(), c1, lists)
  {
    hide Read, ScalingData;
    var lists := b.VbRead(1);
    if lists != 0 {
      var data := b.VbRead(1);
      if data != 0 {
        H265ScalingListData(b);
      }
    }
  }

  method Coding(b: BitReader)
    requires b.Valid()
    modifies b
    ensures b.Cursor() == CodingPart(b.Bits(), old(b.Cursor()))
  {
    hide Read, SkipUes, ListsPart;
    ghost var bs := b.Bits();
    UeTimes(b, 6);
    ScalingLists265(b);
    Skip(b, 1);
    Skip(b, 1);
    var pcm := b.VbRead(1);
    if pcm != 0 {
      Skip(b, 4);
      Skip(b, 4);
      UeTimes(b, 2);
      Skip(b, 1);
    }
  }

  method Ordering(b: BitReader, layers: nat) returns (log2: nat)
    requires b.Valid()
    modifies b
    ensures (b.Cursor(), log2) == OrderPart(b.Bits(), old(b.Cursor()), layers)
  {
    hide Read, Ue, SkipUes, SizePart, CodingPart;
    ghost var bs := b.Bits();
    Sizes(b);
    log2 := b.VbUe();
    var ordering := b.VbRead(1);
    ghost var c := b.Cursor();
    ghost var n := 3 * (if ordering != 0 then layers + 1 else 1);
    var i := if ordering != 0 then 0 else layers;
    ghost var left := n;
    while i <= layers
      invariant i <= layers + 1 && left == 3 * (layers + 1 - i)
      invariant SkipUes(bs, b.Cursor(), left) == SkipUes(bs, c, n)
    {
      UesSplit(bs, b.Cursor(), 3, left - 3);
      UeTimes(b, 3);
      i, left := i + 1, left - 3;
    }
    NoUes(bs, b.Cursor());
    Coding(b);
  }

  lemma NoUes(bs: Bits, c: Cur)
    ensures SkipUes(bs, c, 0) == c
  {
  }

  lemma {:induction false} UesSplit(bs: Bits, c: Cur, m: nat, n: nat)
    ensures SkipUes(bs, c, m + n) == SkipUes(bs, SkipUes(bs, c, m), n)
    decreases m
  {
    hide SkipUe;
    if m > 0 {
      assert SkipUes(bs, c, m + n) == SkipUes(bs, SkipUe(bs, c), m - 1 + n);
      UesSplit(bs, SkipUe(bs, c), m - 1, n);
    }
  }

  method Layers(b: BitReader) returns (layers: nat)
    requires b.Valid() && b.Cursor() == START
    modifies b
    ensures (b.Cursor(), layers) == LayerPart(b.Bits())
  {
    LayersAreFew(b.Bits(), SkipU(b.Bits(), START, 4));
    hide Read, ProfileTierLevel;
    ghost var bs := b.Bits();
    Skip(b, 4);
    layers := b.VbRead(3);
    Skip(b, 1);
    H265ProfileTierLevel(b, layers);
  }

  method H265FullRangeBit(b: BitReader) returns (bit: int)
    requires b.Valid() && b.Cursor() == START
    modifies b
    ensures bit == CodeOf(H265Walk(b.Bits()))
  {
    hide SkipU, LayerPart, OrderPart, RefPart, VuiPart;
    ghost var bs := b.Bits();
    var layers := Layers(b);
    var log2 := Ordering(b, layers);
    var ok := References(b, log2);
    if !ok {
      return -1;
    }
    Skip(b, 1);
    Skip(b, 1);
    bit := VuiFlag(b);
  }

  // ---- on to matrix_coefficients

  method VuiMatrixBit(b: BitReader, flag: nat) returns (bit: int)
    requires b.Valid()
    modifies b
    ensures bit == CodeOf(MatrixWalk(b.Bits(), flag))
  {
    hide Read;
    ghost var bs := b.Bits();
    b.bit := flag;
    b.overflow := false;
    Skip(b, 1);
    var colour := b.VbRead(1);
    if colour == 0 {
      return if b.overflow then -1 else -2;
    }
    Skip(b, 8);
    Skip(b, 8);
    if b.overflow {
      return -1;
    }
    bit := b.bit;
  }
}
