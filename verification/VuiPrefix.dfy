/** A walk depends only on the bits it has read: two buffers of one length that
    agree up to where a walk ends take it to the same place.

    Each reader comes with a lemma of the same shape: if the buffers agree up to the
    cursor it ends at, it ends there on both, with the same value. The lemmas compose
    along the walk, from the single bit up to the whole of it; a step that overflows
    on one buffer overflows on the other, since the lengths are equal. The edit is
    idempotent because of this: what it changes lies behind all that was read. */
module VuiPrefix {
  import opened VuiEscape
  import opened VuiBits
  import opened VuiWalk

  lemma SkipUSame(a: Bits, b: Bits, c: Cur, n: nat)
    requires SameTo(a, b, SkipU(a, c, n).bit)
    ensures SkipU(b, c, n) == SkipU(a, c, n)
  {
    hide Read;
    ReadSame(a, b, c, n);
  }

  lemma SkipUeSame(a: Bits, b: Bits, c: Cur)
    requires SameTo(a, b, SkipUe(a, c).bit)
    ensures SkipUe(b, c) == SkipUe(a, c)
  {
    hide Ue;
    UeSame(a, b, c);
  }

  lemma {:induction false} SkipUesSame(a: Bits, b: Bits, c: Cur, n: nat)
    requires SameTo(a, b, SkipUes(a, c, n).bit)
    ensures SkipUes(b, c, n) == SkipUes(a, c, n)
    decreases n
  {
    hide SkipUe;
    if n > 0 {
      SkipUeSame(a, b, c);
      SkipUesSame(a, b, SkipUe(a, c), n - 1);
    }
  }

  lemma {:induction false} SkipSesSame(a: Bits, b: Bits, c: Cur, n: nat)
    requires SameTo(a, b, SkipSes(a, c, n).bit)
    ensures SkipSes(b, c, n) == SkipSes(a, c, n)
    decreases n
  {
    hide Se;
    if n > 0 {
      SeSame(a, b, c);
      SkipSesSame(a, b, Se(a, c).0, n - 1);
    }
  }

  lemma SkipIfSame(a: Bits, b: Bits, c: Cur, n: nat)
    requires SameTo(a, b, SkipIf(a, c, n).bit)
    ensures SkipIf(b, c, n) == SkipIf(a, c, n)
  {
    hide Read, SkipU;
    var (d, f) := Read(a, c, 1);
    ReadSame(a, b, c, 1);
    if f != 0 {
      SkipUSame(a, b, d, n);
    }
  }

  // ---- H.264

  lemma {:induction false} ScalingListSame(a: Bits, b: Bits, c: Cur, j: nat, size: nat, last: int, next: int)
    requires SameTo(a, b, ScalingList(a, c, j, size, last, next).bit)
    ensures ScalingList(b, c, j, size, last, next) == ScalingList(a, c, j, size, last, next)
    decreases size - j
  {
    hide Se, Rem256;
    if j < size {
      if next == 0 {
        ScalingListSame(a, b, c, j + 1, size, last, 0);
      } else {
        var (d, delta) := Se(a, c);
        var n := Rem256(last + delta + 256);
        SeSame(a, b, c);
        ScalingListSame(a, b, d, j + 1, size, if n == 0 then last else n, n);
      }
    }
  }

  lemma {:induction false} ScalingListsSame(a: Bits, b: Bits, c: Cur, i: nat, lists: nat)
    requires SameTo(a, b, ScalingLists(a, c, i, lists).bit)
    ensures ScalingLists(b, c, i, lists) == ScalingLists(a, c, i, lists)
    decreases lists - i
  {
    hide Read, ScalingList;
    if i < lists {
      var (d, present) := Read(a, c, 1);
      ReadSame(a, b, c, 1);
      if present != 0 {
        ScalingListSame(a, b, d, 0, ListSize(i), 8, 8);
        ScalingListsSame(a, b, ScalingList(a, d, 0, ListSize(i), 8, 8), i + 1, lists);
      } else {
        ScalingListsSame(a, b, d, i + 1, lists);
      }
    }
  }

  lemma HighPartSame(a: Bits, b: Bits, c: Cur)
    requires SameTo(a, b, HighPart(a, c).bit)
    ensures HighPart(b, c) == HighPart(a, c)
  {
    hide Read, Ue, SkipU, SkipUe, ScalingLists;
    var (c1, chroma) := Ue(a, c);
    UeSame(a, b, c);
    var c2 := if chroma == 3 then SkipU(a, c1, 1) else c1;
    if chroma == 3 {
      SkipUSame(a, b, c1, 1);
    }
    SkipUeSame(a, b, c2);
    SkipUeSame(a, b, SkipUe(a, c2));
    SkipUSame(a, b, SkipUe(a, SkipUe(a, c2)), 1);
    var c3 := SkipU(a, SkipUe(a, SkipUe(a, c2)), 1);
    var (c4, matrix) := Read(a, c3, 1);
    ReadSame(a, b, c3, 1);
    if matrix != 0 {
      ScalingListsSame(a, b, c4, 0, if chroma == 3 then 12 else 8);
    }
  }

  lemma PocPartSame(a: Bits, b: Bits, c: Cur)
    requires PocPart(a, c).Go? && SameTo(a, b, PocPart(a, c).c.bit)
    ensures PocPart(b, c) == PocPart(a, c)
  {
    hide Read, Ue, SkipU, SkipUe, SkipSes;
    var c1 := SkipUe(a, c);
    SkipUeSame(a, b, c);
    var (c2, kind) := Ue(a, c1);
    UeSame(a, b, c1);
    if kind == 0 {
      SkipUeSame(a, b, c2);
    } else if kind == 1 {
      SkipUSame(a, b, c2, 1);
      SkipSesSame(a, b, SkipU(a, c2, 1), 2);
      var c3 := SkipSes(a, SkipU(a, c2, 1), 2);
      var (c4, n) := Ue(a, c3);
      UeSame(a, b, c3);
      SkipSesSame(a, b, c4, n);
    }
  }

  lemma FramePartSame(a: Bits, b: Bits, c: Cur)
    requires SameTo(a, b, FramePart(a, c).bit)
    ensures FramePart(b, c) == FramePart(a, c)
  {
    hide Read, SkipU, SkipUe, SkipUes;
    SkipUeSame(a, b, c);
    SkipUSame(a, b, SkipUe(a, c), 1);
    var c1 := SkipU(a, SkipUe(a, c), 1);
    SkipUesSame(a, b, c1, 2);
    var (c2, frameOnly) := Read(a, SkipUes(a, c1, 2), 1);
    ReadSame(a, b, SkipUes(a, c1, 2), 1);
    var c3 := if frameOnly == 0 then SkipU(a, c2, 1) else c2;
    if frameOnly == 0 {
      SkipUSame(a, b, c2, 1);
    }
    SkipUSame(a, b, c3, 1);
    var (c4, crop) := Read(a, SkipU(a, c3, 1), 1);
    ReadSame(a, b, SkipU(a, c3, 1), 1);
    if crop != 0 {
      SkipUesSame(a, b, c4, 4);
    }
  }

  lemma AspectPartSame(a: Bits, b: Bits, c: Cur)
    requires SameTo(a, b, AspectPart(a, c).bit)
    ensures AspectPart(b, c) == AspectPart(a, c)
  {
    hide Read, SkipU;
    var (c1, present) := Read(a, c, 1);
    ReadSame(a, b, c, 1);
    if present != 0 {
      var (c2, idc) := Read(a, c1, 8);
      ReadSame(a, b, c1, 8);
      if idc == 255 {
        SkipUSame(a, b, c2, 16);
        SkipUSame(a, b, SkipU(a, c2, 16), 16);
      }
    }
  }

  lemma VuiPartSame(a: Bits, b: Bits, c: Cur)
    requires VuiPart(a, c).Found? && SameTo(a, b, VuiPart(a, c).bit)
    ensures VuiPart(b, c) == VuiPart(a, c)
    ensures VuiPart(a, c).bit >= c.bit
  {
    hide Read, SkipU, SkipIf, AspectPart;
    var (c1, vui) := Read(a, c, 1);
    ReadSame(a, b, c, 1);
    AspectPartSame(a, b, c1);
    SkipIfSame(a, b, AspectPart(a, c1), 1);
    var c2 := SkipIf(a, AspectPart(a, c1), 1);
    var (c3, signal) := Read(a, c2, 1);
    ReadSame(a, b, c2, 1);
    SkipUSame(a, b, c3, 3);
  }

  lemma HeadPartSame(a: Bits, b: Bits)
    requires SameTo(a, b, HeadPart(a).0.bit)
    ensures HeadPart(b) == HeadPart(a)
  {
    hide Read, SkipU, SkipUe;
    var (c1, profile) := Read(a, START, 8);
    ReadSame(a, b, START, 8);
    SkipUSame(a, b, c1, 8);
    SkipUSame(a, b, SkipU(a, c1, 8), 8);
    SkipUeSame(a, b, SkipU(a, SkipU(a, c1, 8), 8));
  }

  lemma VuiPartAfter(a: Bits, c: Cur)
    requires VuiPart(a, c).Found?
    ensures VuiPart(a, c).bit >= c.bit
  {
    hide Read, SkipU, SkipIf, AspectPart;
  }

  lemma H264Same(a: Bits, b: Bits)
    requires H264Walk(a).Found? && SameTo(a, b, H264Walk(a).bit)
    ensures H264Walk(b) == H264Walk(a)
  {
    hide HeadPart, HighPart, PocPart, FramePart, VuiPart, HighProfile;
    var (c1, profile) := HeadPart(a);
    var c2 := if HighProfile(profile) then HighPart(a, c1) else c1;
    var c3 := PocPart(a, c2).c;
    VuiPartAfter(a, FramePart(a, c3));
    HeadPartSame(a, b);
    if HighProfile(profile) {
      HighPartSame(a, b, c1);
    }
    PocPartSame(a, b, c2);
    FramePartSame(a, b, c3);
    VuiPartSame(a, b, FramePart(a, c3));
  }

  // ---- H.265

  lemma {:induction false} SubLayerFlagsSame(a: Bits, b: Bits, c: Cur, n: nat)
    requires SameTo(a, b, SubLayerFlags(a, c, n).0.bit)
    ensures SubLayerFlags(b, c, n) == SubLayerFlags(a, c, n)
    decreases n
  {
    hide Read;
    if n > 0 {
      var (c1, profile) := Read(a, c, 1);
      var (c2, level) := Read(a, c1, 1);
      ReadSame(a, b, c, 1);
      ReadSame(a, b, c1, 1);
      SubLayerFlagsSame(a, b, c2, n - 1);
    }
  }

  lemma {:induction false} SkipManySame(a: Bits, b: Bits, c: Cur, bits: nat, n: nat)
    requires SameTo(a, b, SkipMany(a, c, bits, n).bit)
    ensures SkipMany(b, c, bits, n) == SkipMany(a, c, bits, n)
    decreases n
  {
    hide SkipU;
    if n > 0 {
      SkipUSame(a, b, c, bits);
      SkipManySame(a, b, SkipU(a, c, bits), bits, n - 1);
    }
  }

  lemma ProfileBlockSame(a: Bits, b: Bits, c: Cur)
    requires SameTo(a, b, ProfileBlock(a, c).bit)
    ensures ProfileBlock(b, c) == ProfileBlock(a, c)
  {
    hide SkipU;
    SkipUSame(a, b, c, 8);
    SkipUSame(a, b, SkipU(a, c, 8), 32);
    SkipUSame(a, b, SkipU(a, SkipU(a, c, 8), 32), 32);
    SkipUSame(a, b, SkipU(a, SkipU(a, SkipU(a, c, 8), 32), 32), 16);
  }

  lemma {:induction false} SubLayersSame(a: Bits, b: Bits, c: Cur, flags: seq<(nat, nat)>)
    requires SameTo(a, b, SubLayers(a, c, flags).bit)
    ensures SubLayers(b, c, flags) == SubLayers(a, c, flags)
    decreases |flags|
  {
    hide SkipU, ProfileBlock;
    if flags != [] {
      var c1 := if flags[0].0 != 0 then ProfileBlock(a, c) else c;
      var c2 := if flags[0].1 != 0 then SkipU(a, c1, 8) else c1;
      if flags[0].0 != 0 {
        ProfileBlockSame(a, b, c);
      }
      if flags[0].1 != 0 {
        SkipUSame(a, b, c1, 8);
      }
      SubLayersSame(a, b, c2, flags[1..]);
    }
  }

  lemma ProfileTierLevelSame(a: Bits, b: Bits, c: Cur, layers: nat)
    requires layers < 8 && SameTo(a, b, ProfileTierLevel(a, c, layers).bit)
    ensures ProfileTierLevel(b, c, layers) == ProfileTierLevel(a, c, layers)
  {
    hide SkipU, ProfileBlock, SubLayerFlags, SkipMany, SubLayers;
    ProfileBlockSame(a, b, c);
    SkipUSame(a, b, ProfileBlock(a, c), 8);
    var c1 := SkipU(a, ProfileBlock(a, c), 8);
    var (c2, flags) := SubLayerFlags(a, c1, layers);
    SubLayerFlagsSame(a, b, c1, layers);
    var c3 := if layers > 0 then SkipMany(a, c2, 2, 8 - layers) else c2;
    if layers > 0 {
      SkipManySame(a, b, c2, 2, 8 - layers);
    }
    SubLayersSame(a, b, c3, flags);
  }

  lemma ScalingMatrixSame(a: Bits, b: Bits, c: Cur, sizeId: nat)
    requires SameTo(a, b, ScalingMatrix(a, c, sizeId).bit)
    ensures ScalingMatrix(b, c, sizeId) == ScalingMatrix(a, c, sizeId)
  {
    hide Read, Se, SkipUe, SkipSes;
    var (c1, mode) := Read(a, c, 1);
    ReadSame(a, b, c, 1);
    if mode == 0 {
      SkipUeSame(a, b, c1);
    } else {
      var c2 := if sizeId > 1 then Se(a, c1).0 else c1;
      if sizeId > 1 {
        SeSame(a, b, c1);
      }
      SkipSesSame(a, b, c2, Coefs(sizeId));
    }
  }

  lemma {:induction false} MatrixRowSame(a: Bits, b: Bits, c: Cur, sizeId: nat, n: nat)
    requires SameTo(a, b, MatrixRow(a, c, sizeId, n).bit)
    ensures MatrixRow(b, c, sizeId, n) == MatrixRow(a, c, sizeId, n)
    decreases n
  {
    hide ScalingMatrix;
    if n > 0 {
      ScalingMatrixSame(a, b, c, sizeId);
      MatrixRowSame(a, b, ScalingMatrix(a, c, sizeId), sizeId, n - 1);
    }
  }

  lemma {:induction false} ScalingDataSame(a: Bits, b: Bits, c: Cur, sizeId: nat)
    requires SameTo(a, b, ScalingData(a, c, sizeId).bit)
    ensures ScalingData(b, c, sizeId) == ScalingData(a, c, sizeId)
    decreases 4 - sizeId
  {
    hide MatrixRow;
    if sizeId < 4 {
      MatrixRowSame(a, b, c, sizeId, Matrices(sizeId));
      ScalingDataSame(a, b, MatrixRow(a, c, sizeId, Matrices(sizeId)), sizeId + 1);
    }
  }

  lemma {:induction false} InterEntriesSame(a: Bits, b: Bits, c: Cur, n: nat, kept: nat)
    requires SameTo(a, b, InterEntries(a, c, n, kept).0.bit)
    ensures InterEntries(b, c, n, kept) == InterEntries(a, c, n, kept)
    decreases n
  {
    hide Read;
    if n > 0 {
      var (c1, used) := Read(a, c, 1);
      ReadSame(a, b, c, 1);
      var (c2, delta) := if used == 0 then Read(a, c1, 1) else (c1, 1);
      if used == 0 {
        ReadSame(a, b, c1, 1);
      }
      InterEntriesSame(a, b, c2, n - 1, if used != 0 || delta != 0 then kept + 1 else kept);
    }
  }

  lemma {:induction false} PairsSame(a: Bits, b: Bits, c: Cur, n: nat)
    requires SameTo(a, b, Pairs(a, c, n).bit)
    ensures Pairs(b, c, n) == Pairs(a, c, n)
    decreases n
  {
    hide SkipU, SkipUe;
    if n > 0 {
      SkipUeSame(a, b, c);
      SkipUSame(a, b, SkipUe(a, c), 1);
      PairsSame(a, b, SkipU(a, SkipUe(a, c), 1), n - 1);
    }
  }

  lemma RefPicSetSame(a: Bits, b: Bits, c: Cur, done: seq<nat>)
    requires RefPicSet(a, c, done).Counted? && SameTo(a, b, RefPicSet(a, c, done).c.bit)
    ensures RefPicSet(b, c, done) == RefPicSet(a, c, done)
  {
    hide Read, Ue, SkipU, SkipUe, InterEntries, Pairs;
    var (c1, inter) := if done != [] then Read(a, c, 1) else (c, 0);
    if done != [] {
      ReadSame(a, b, c, 1);
    }
    if inter != 0 {
      SkipUSame(a, b, c1, 1);
      SkipUeSame(a, b, SkipU(a, c1, 1));
      InterEntriesSame(a, b, SkipUe(a, SkipU(a, c1, 1)), done[|done| - 1] + 1, 0);
    } else {
      var (c2, neg) := Ue(a, c1);
      UeSame(a, b, c1);
      var (c3, pos) := Ue(a, c2);
      UeSame(a, b, c2);
      PairsSame(a, b, c3, neg);
      PairsSame(a, b, Pairs(a, c3, neg), pos);
    }
  }

  lemma {:induction false} RefPicSetsSame(a: Bits, b: Bits, c: Cur, n: nat, done: seq<nat>)
    requires RefPicSets(a, c, n, done).Go? && SameTo(a, b, RefPicSets(a, c, n, done).c.bit)
    ensures RefPicSets(b, c, n, done) == RefPicSets(a, c, n, done)
    decreases n
  {
    hide RefPicSet;
    if n > 0 {
      var s := RefPicSet(a, c, done);
      RefPicSetsSame(a, b, s.c, n - 1, done + [s.pocs]);
      RefPicSetSame(a, b, c, done);
    }
  }

  lemma {:induction false} LongTermSame(a: Bits, b: Bits, c: Cur, bits: nat, n: nat)
    requires SameTo(a, b, LongTerm(a, c, bits, n).bit)
    ensures LongTerm(b, c, bits, n) == LongTerm(a, c, bits, n)
    decreases n
  {
    hide SkipU;
    if n > 0 {
      SkipUSame(a, b, c, bits);
      SkipUSame(a, b, SkipU(a, c, bits), 1);
      LongTermSame(a, b, SkipU(a, SkipU(a, c, bits), 1), bits, n - 1);
    }
  }

  lemma SizePartSame(a: Bits, b: Bits, c: Cur)
    requires SameTo(a, b, SizePart(a, c).bit)
    ensures SizePart(b, c) == SizePart(a, c)
  {
    hide Read, Ue, SkipU, SkipUe, SkipUes;
    SkipUeSame(a, b, c);
    var (c1, chroma) := Ue(a, SkipUe(a, c));
    UeSame(a, b, SkipUe(a, c));
    var c2 := if chroma == 3 then SkipU(a, c1, 1) else c1;
    if chroma == 3 {
      SkipUSame(a, b, c1, 1);
    }
    SkipUesSame(a, b, c2, 2);
    var (c3, window) := Read(a, SkipUes(a, c2, 2), 1);
    ReadSame(a, b, SkipUes(a, c2, 2), 1);
    var c4 := if window != 0 then SkipUes(a, c3, 4) else c3;
    if window != 0 {
      SkipUesSame(a, b, c3, 4);
    }
    SkipUesSame(a, b, c4, 2);
  }

  lemma ListsPartSame(a: Bits, b: Bits, c: Cur, lists: nat)
    requires SameTo(a, b, ListsPart(a, c, lists).bit)
    ensures ListsPart(b, c, lists) == ListsPart(a, c, lists)
  {
    hide Read, ScalingData;
    if lists != 0 {
      var (c1, data) := Read(a, c, 1);
      ReadSame(a, b, c, 1);
      if data != 0 {
        ScalingDataSame(a, b, c1, 0);
      }
    }
  }

  lemma CodingPartSame(a: Bits, b: Bits, c: Cur)
    requires SameTo(a, b, CodingPart(a, c).bit)
    ensures CodingPart(b, c) == CodingPart(a, c)
  {
    hide Read, SkipU, SkipUes, ListsPart;
    SkipUesSame(a, b, c, 6);
    var (c1, lists) := Read(a, SkipUes(a, c, 6), 1);
    ReadSame(a, b, SkipUes(a, c, 6), 1);
    ListsPartSame(a, b, c1, lists);
    var c2 := ListsPart(a, c1, lists);
    SkipUSame(a, b, c2, 1);
    SkipUSame(a, b, SkipU(a, c2, 1), 1);
    var (c3, pcm) := Read(a, SkipU(a, SkipU(a, c2, 1), 1), 1);
    ReadSame(a, b, SkipU(a, SkipU(a, c2, 1), 1), 1);
    if pcm != 0 {
      PcmSame(a, b, c3);
    }
  }

  lemma PcmSame(a: Bits, b: Bits, c: Cur)
    requires SameTo(a, b, SkipU(a, SkipUes(a, SkipU(a, SkipU(a, c, 4), 4), 2), 1).bit)
    ensures SkipU(b, SkipUes(b, SkipU(b, SkipU(b, c, 4), 4), 2), 1)
         == SkipU(a, SkipUes(a, SkipU(a, SkipU(a, c, 4), 4), 2), 1)
  {
    hide SkipU, SkipUes;
    SkipUSame(a, b, c, 4);
    SkipUSame(a, b, SkipU(a, c, 4), 4);
    SkipUesSame(a, b, SkipU(a, SkipU(a, c, 4), 4), 2);
    SkipUSame(a, b, SkipUes(a, SkipU(a, SkipU(a, c, 4), 4), 2), 1);
  }

  lemma LongPartSame(a: Bits, b: Bits, c: Cur, log2: nat)
    requires LongPart(a, c, log2).Go? && SameTo(a, b, LongPart(a, c, log2).c.bit)
    ensures LongPart(b, c, log2) == LongPart(a, c, log2)
  {
    hide Read, Ue, LongTerm;
    var (c1, present) := Read(a, c, 1);
    ReadSame(a, b, c, 1);
    if present != 0 {
      var (c2, n) := Ue(a, c1);
      UeSame(a, b, c1);
      LongTermSame(a, b, c2, PocLsbBits(log2), n);
    }
  }

  lemma RefPartSame(a: Bits, b: Bits, c: Cur, log2: nat)
    requires RefPart(a, c, log2).Go? && SameTo(a, b, RefPart(a, c, log2).c.bit)
    ensures RefPart(b, c, log2) == RefPart(a, c, log2)
  {
    hide Ue, RefPicSets, LongPart;
    var (c1, sets) := Ue(a, c);
    UeSame(a, b, c);
    RefPicSetsSame(a, b, c1, sets, []);
    LongPartSame(a, b, RefPicSets(a, c1, sets, []).c, log2);
  }

  lemma LayerPartSame(a: Bits, b: Bits)
    requires SameTo(a, b, LayerPart(a).0.bit)
    ensures LayerPart(b) == LayerPart(a)
  {
    var c0 := SkipU(a, START, 4);
    LayersAreFew(a, c0);
    hide Read, SkipU, ProfileTierLevel;
    var (c1, layers) := Read(a, c0, 3);
    ProfileTierLevelAfter(a, SkipU(a, c1, 1), layers);
    SkipUSame(a, b, START, 4);
    ReadSame(a, b, c0, 3);
    SkipUSame(a, b, c1, 1);
    ProfileTierLevelSame(a, b, SkipU(a, c1, 1), layers);
  }

  lemma ProfileTierLevelAfter(a: Bits, c: Cur, layers: nat)
    requires layers < 8
    ensures ProfileTierLevel(a, c, layers).bit >= c.bit
  {
  }

  lemma OrderPartSame(a: Bits, b: Bits, c: Cur, layers: nat)
    requires SameTo(a, b, OrderPart(a, c, layers).0.bit)
    ensures OrderPart(b, c, layers) == OrderPart(a, c, layers)
  {
    hide Read, Ue, SkipUes, SizePart, CodingPart;
    SizePartSame(a, b, c);
    var (c1, log2) := Ue(a, SizePart(a, c));
    UeSame(a, b, SizePart(a, c));
    var (c2, ordering) := Read(a, c1, 1);
    ReadSame(a, b, c1, 1);
    var n := 3 * (if ordering != 0 then layers + 1 else 1);
    SkipUesSame(a, b, c2, n);
    CodingPartSame(a, b, SkipUes(a, c2, n));
  }

  lemma H265Same(a: Bits, b: Bits)
    requires H265Walk(a).Found? && SameTo(a, b, H265Walk(a).bit)
    ensures H265Walk(b) == H265Walk(a)
  {
    hide LayerPart, OrderPart, RefPart, SkipU, VuiPart;
    var (c0, layers) := LayerPart(a);
    var (c1, log2) := OrderPart(a, c0, layers);
    var c2 := RefPart(a, c1, log2).c;
    var c3 := SkipU(a, c2, 1);
    VuiPartAfter(a, SkipU(a, c3, 1));
    LayerPartSame(a, b);
    OrderPartSame(a, b, c0, layers);
    RefPartSame(a, b, c1, log2);
    SkipUSame(a, b, c2, 1);
    SkipUSame(a, b, c3, 1);
    VuiPartSame(a, b, SkipU(a, c3, 1));
  }

  /** The offset of the flag depends only on the bits before it. */
  lemma FullRangeSame(a: Bits, b: Bits, h265: bool)
    requires FullRangeWalk(a, h265).Found? && SameTo(a, b, FullRangeWalk(a, h265).bit)
    ensures FullRangeWalk(b, h265) == FullRangeWalk(a, h265)
  {
    hide H264Walk, H265Walk;
    if h265 {
      H265Same(a, b);
    } else {
      H264Same(a, b);
    }
  }

  /** The offset of matrix_coefficients depends only on the bits before it, and
      lies past the flag. */
  lemma MatrixSame(a: Bits, b: Bits, flag: nat)
    requires MatrixWalk(a, flag).Found? && SameTo(a, b, MatrixWalk(a, flag).bit)
    ensures MatrixWalk(b, flag) == MatrixWalk(a, flag) && MatrixWalk(a, flag).bit >= flag
  {
    hide Read, SkipU;
    var c0 := Cur(flag, false);
    SkipUSame(a, b, c0, 1);
    var (c1, colour) := Read(a, SkipU(a, c0, 1), 1);
    ReadSame(a, b, SkipU(a, c0, 1), 1);
    SkipUSame(a, b, c1, 8);
    SkipUSame(a, b, SkipU(a, c1, 8), 8);
  }
}
