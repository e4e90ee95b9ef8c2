/** The H.265 walk is exact where its count of reference pictures is: over the bits of
    any conforming parameter set it ends on video_full_range_flag, or reports that
    there is none, as long as no reference picture set that another is predicted from
    keeps a candidate at the current picture itself. */
module VuiHevcExact {
  import opened Basics
  import opened VuiEscape
  import opened VuiBits
  import opened VuiWalk
  import opened VuiSyntax
  import opened VuiExact
  import opened VuiHevc

  // ---- one field in front of others

  lemma TakeOneU(bs: Bits, c: Cur, n: nat, v: nat, rest: seq<Field>) returns (d: Cur)
    requires Holds(bs, c, [U(n, v)] + rest)
    ensures Read(bs, c, n) == (d, v) && SkipU(bs, c, n) == d
    ensures Holds(bs, d, rest) && Past(c, [U(n, v)] + rest) == Past(d, rest)
  {
    var fs := [U(n, v)] + rest;
    assert fs[0] == U(n, v) && fs[1..] == rest;
    hide Holds, Past, Read, SkipU;
    d := TakeU(bs, c, fs);
  }

  lemma TakeOneUe(bs: Bits, c: Cur, v: nat, rest: seq<Field>) returns (d: Cur)
    requires Holds(bs, c, [UE(v)] + rest)
    ensures Ue(bs, c) == (d, v) && SkipUe(bs, c) == d
    ensures Holds(bs, d, rest) && Past(c, [UE(v)] + rest) == Past(d, rest)
  {
    var fs := [UE(v)] + rest;
    assert fs[0] == UE(v) && fs[1..] == rest;
    hide Holds, Past, Ue, SkipUe;
    d := TakeUe(bs, c, fs);
  }

  lemma TakeLastFlag(bs: Bits, c: Cur, b: bool) returns (d: Cur)
    requires Holds(bs, c, [Flag(b)])
    ensures Read(bs, c, 1) == (d, if b then 1 else 0) && SkipU(bs, c, 1) == d && d == Past(c, [Flag(b)])
  {
    hide Holds, Past, Read, SkipU;
    assert [Flag(b)] == [Flag(b)] + [];
    d := TakeFlag(bs, c, b, []);
    PastNone(d);
  }

  lemma TakeLastUe(bs: Bits, c: Cur, v: nat) returns (d: Cur)
    requires Holds(bs, c, [UE(v)])
    ensures Ue(bs, c) == (d, v) && SkipUe(bs, c) == d && d == Past(c, [UE(v)])
  {
    hide Holds, Past, Ue, SkipUe;
    assert [UE(v)] == [UE(v)] + [];
    d := TakeOneUe(bs, c, v, []);
    PastNone(d);
  }

  lemma TakeLastU(bs: Bits, c: Cur, n: nat, v: nat) returns (d: Cur)
    requires Holds(bs, c, [U(n, v)])
    ensures Read(bs, c, n) == (d, v) && SkipU(bs, c, n) == d && d == Past(c, [U(n, v)])
  {
    hide Holds, Past, Read, SkipU;
    assert [U(n, v)] == [U(n, v)] + [];
    d := TakeOneU(bs, c, n, v, []);
    PastNone(d);
  }

  lemma {:induction false} UesExact(bs: Bits, c: Cur, us: seq<nat>)
    requires Holds(bs, c, UeFields(us))
    ensures SkipUes(bs, c, |us|) == Past(c, UeFields(us))
    decreases |us|
  {
    hide Holds, Past, Ue, SkipUe;
    if us == [] {
      PastNone(c);
    } else {
      var d := TakeOneUe(bs, c, us[0], UeFields(us[1..]));
      UesExact(bs, d, us[1..]);
    }
  }

  // ---- profile_tier_level

  lemma ProfileExact(bs: Bits, c: Cur, p: Profile)
    requires Holds(bs, c, ProfileFields(p))
    ensures ProfileBlock(bs, c) == Past(c, ProfileFields(p))
  {
    hide Holds, Past, Read, SkipU;
    assert ProfileFields(p) == [U(8, p.idc)] + ([U(32, p.compat)] + ([U(32, p.flags)] + [U(16, p.rest)]));
    var c1 := TakeOneU(bs, c, 8, p.idc, [U(32, p.compat)] + ([U(32, p.flags)] + [U(16, p.rest)]));
    var c2 := TakeOneU(bs, c1, 32, p.compat, [U(32, p.flags)] + [U(16, p.rest)]);
    var c3 := TakeOneU(bs, c2, 32, p.flags, [U(16, p.rest)]);
    var c4 := TakeLastU(bs, c3, 16, p.rest);
  }

  function Presence(subs: seq<SubLayer>): (r: seq<(nat, nat)>)
    ensures |r| == |subs|
  {
    if subs == [] then []
    else [(if subs[0].profile.Some? then 1 else 0, if subs[0].level.Some? then 1 else 0)] + Presence(subs[1..])
  }

  lemma {:induction false} PresenceExact(bs: Bits, c: Cur, subs: seq<SubLayer>)
    requires Holds(bs, c, PresenceFields(subs))
    ensures SubLayerFlags(bs, c, |subs|) == (Past(c, PresenceFields(subs)), Presence(subs))
    decreases |subs|
  {
    hide Holds, Past, Read;
    if subs == [] {
      PastNone(c);
    } else {
      var rest := PresenceFields(subs[1..]);
      var c1 := TakeFlag(bs, c, subs[0].profile.Some?, [Flag(subs[0].level.Some?)] + rest);
      var c2 := TakeFlag(bs, c1, subs[0].level.Some?, rest);
      PresenceExact(bs, c2, subs[1..]);
    }
  }

  lemma {:induction false} AlignExact(bs: Bits, c: Cur, n: nat)
    requires Holds(bs, c, AlignFields(n))
    ensures SkipMany(bs, c, 2, n) == Past(c, AlignFields(n))
    decreases n
  {
    hide Holds, Past, Read, SkipU;
    if n == 0 {
      PastNone(c);
    } else {
      var d := TakeOneU(bs, c, 2, 0, AlignFields(n - 1));
      AlignExact(bs, d, n - 1);
    }
  }

  lemma OptProfileExact(bs: Bits, c: Cur, p: Option<Profile>)
    requires Holds(bs, c, if p.Some? then ProfileFields(p.value) else [])
    ensures (if p.Some? then ProfileBlock(bs, c) else c) == Past(c, if p.Some? then ProfileFields(p.value) else [])
  {
    hide Holds, Past, ProfileBlock, ProfileFields;
    if p.Some? {
      ProfileExact(bs, c, p.value);
    } else {
      PastNone(c);
    }
  }

  lemma LevelExact(bs: Bits, c: Cur, l: Option<nat>)
    requires Holds(bs, c, LevelFields(l))
    ensures (if l.Some? then SkipU(bs, c, 8) else c) == Past(c, LevelFields(l))
  {
    hide Holds, Past, Read, SkipU;
    if l.Some? {
      var d := TakeLastU(bs, c, 8, l.value);
    } else {
      PastNone(c);
    }
  }

  lemma {:induction false} SubsExact(bs: Bits, c: Cur, subs: seq<SubLayer>)
    requires Holds(bs, c, SubFields(subs))
    ensures SubLayers(bs, c, Presence(subs)) == Past(c, SubFields(subs))
    decreases |subs|
  {
    hide Holds, Past, Read, SkipU, ProfileBlock, ProfileFields, LevelFields;
    if subs == [] {
      PastNone(c);
    } else {
      var p := if subs[0].profile.Some? then ProfileFields(subs[0].profile.value) else [];
      var l := LevelFields(subs[0].level);
      HoldsSplit(bs, c, p + l, SubFields(subs[1..]));
      HoldsSplit(bs, c, p, l);
      OptProfileExact(bs, c, subs[0].profile);
      LevelExact(bs, Past(c, p), subs[0].level);
      SubsExact(bs, Past(Past(c, p), l), subs[1..]);
    }
  }

  lemma SubPartExact(bs: Bits, c: Cur, subs: seq<SubLayer>)
    requires |subs| < 8
    requires Holds(bs, c, PresenceFields(subs) + (if 0 < |subs| <= 8 then AlignFields(8 - |subs|) else []) + SubFields(subs))
    ensures var (c2, flags) := SubLayerFlags(bs, c, |subs|);
            var c3 := if |subs| > 0 then SkipMany(bs, c2, 2, 8 - |subs|) else c2;
            SubLayers(bs, c3, flags)
            == Past(c, PresenceFields(subs) + (if 0 < |subs| <= 8 then AlignFields(8 - |subs|) else []) + SubFields(subs))
  {
    hide *;
    var align := if 0 < |subs| <= 8 then AlignFields(8 - |subs|) else [];
    HoldsSplit(bs, c, PresenceFields(subs) + align, SubFields(subs));
    HoldsSplit(bs, c, PresenceFields(subs), align);
    PresenceExact(bs, c, subs);
    var c2 := Past(c, PresenceFields(subs));
    if |subs| > 0 {
      AlignExact(bs, c2, 8 - |subs|);
    } else {
      PastNone(c2);
    }
    SubsExact(bs, Past(c2, align), subs);
  }

  lemma LayersAre(l: Layers)
    ensures LayersFields(l)
         == ProfileFields(l.general)
            + ([U(8, l.level)]
               + (PresenceFields(l.subs) + (if 0 < |l.subs| <= 8 then AlignFields(8 - |l.subs|) else []) + SubFields(l.subs)))
  {
    hide ProfileFields, PresenceFields, AlignFields, SubFields;
    var a, b, d, e := ProfileFields(l.general), [U(8, l.level)], PresenceFields(l.subs), SubFields(l.subs);
    var align := if 0 < |l.subs| <= 8 then AlignFields(8 - |l.subs|) else [];
    assert a + b + d + align + e == a + (b + (d + align + e));
  }

  lemma PtlUnfold(bs: Bits, c: Cur, layers: nat)
    requires layers < 8
    ensures var (c2, flags) := SubLayerFlags(bs, SkipU(bs, ProfileBlock(bs, c), 8), layers);
            ProfileTierLevel(bs, c, layers)
            == SubLayers(bs, if layers > 0 then SkipMany(bs, c2, 2, 8 - layers) else c2, flags)
  {
    hide SubLayerFlags, SkipU, ProfileBlock, SkipMany, SubLayers;
  }

  lemma LayersExact(bs: Bits, c: Cur, l: Layers)
    requires |l.subs| < 8 && Holds(bs, c, LayersFields(l))
    ensures ProfileTierLevel(bs, c, |l.subs|) == Past(c, LayersFields(l))
  {
    hide *;
    var subs := PresenceFields(l.subs) + (if 0 < |l.subs| <= 8 then AlignFields(8 - |l.subs|) else []) + SubFields(l.subs);
    LayersAre(l);
    HoldsSplit(bs, c, ProfileFields(l.general), [U(8, l.level)] + subs);
    ProfileExact(bs, c, l.general);
    var c1 := TakeOneU(bs, Past(c, ProfileFields(l.general)), 8, l.level, subs);
    SubPartExact(bs, c1, l.subs);
    PtlUnfold(bs, c, |l.subs|);
  }

  lemma TopExact(bs: Bits, s: Hevc)
    requires |s.layers.subs| < 8 && Holds(bs, START, TopFields(s))
    ensures LayerPart(bs) == (Past(START, TopFields(s)), |s.layers.subs|)
  {
    hide Holds, Past, Read, SkipU, ProfileTierLevel, LayersFields;
    var c1 := TakeOneU(bs, START, 4, s.vps, [U(3, |s.layers.subs|)] + ([Flag(s.nesting)] + LayersFields(s.layers)));
    var c2 := TakeOneU(bs, c1, 3, |s.layers.subs|, [Flag(s.nesting)] + LayersFields(s.layers));
    var c3 := TakeFlag(bs, c2, s.nesting, LayersFields(s.layers));
    LayersExact(bs, c3, s.layers);
  }

  // ---- sizes and order

  lemma WindowExact(bs: Bits, c: Cur, w: Option<Crop>)
    requires Holds(bs, c, WindowFields(w))
    ensures var (d, present) := Read(bs, c, 1);
            (if present != 0 then SkipUes(bs, d, 4) else d) == Past(c, WindowFields(w))
  {
    hide Holds, Past, Read, SkipUes, UeFields;
    var rest := if w.Some? then UeFields([w.value.left, w.value.right, w.value.top, w.value.bottom]) else [];
    var d := TakeFlag(bs, c, w.Some?, rest);
    if w.Some? {
      UesExact(bs, d, [w.value.left, w.value.right, w.value.top, w.value.bottom]);
    } else {
      PastNone(d);
    }
  }

  lemma PlanesExact(bs: Bits, c: Cur, s: Size) returns (d: Cur)
    requires Holds(bs, c, [UE(s.chroma)] + (if s.chroma == 3 then [Flag(s.separate)] else []))
    ensures d == Past(c, [UE(s.chroma)] + (if s.chroma == 3 then [Flag(s.separate)] else []))
    ensures var (c1, chroma) := Ue(bs, c);
            chroma == s.chroma && d == if chroma == 3 then SkipU(bs, c1, 1) else c1
  {
    hide Holds, Past, Read, Ue, SkipU;
    d := TakeOneUe(bs, c, s.chroma, if s.chroma == 3 then [Flag(s.separate)] else []);
    if s.chroma == 3 {
      d := TakeLastFlag(bs, d, s.separate);
    } else {
      PastNone(d);
    }
  }

  lemma SizesExact(bs: Bits, c: Cur, s: Size)
    requires Holds(bs, c, SizeFields(s))
    ensures SizePart(bs, c) == Past(c, SizeFields(s))
  {
    var id, planes := [UE(s.id)], [UE(s.chroma)] + (if s.chroma == 3 then [Flag(s.separate)] else []);
    var wh, window, depth := UeFields([s.width, s.height]), WindowFields(s.window), UeFields([s.lumaDepth, s.chromaDepth]);
    hide Holds, Past, Read, Ue, SkipU, SkipUe, SkipUes, UeFields, WindowFields;
    HoldsSplit(bs, c, id + planes + wh + window, depth);
    HoldsSplit(bs, c, id + planes + wh, window);
    HoldsSplit(bs, c, id + planes, wh);
    HoldsSplit(bs, c, id, planes);
    var c1 := TakeLastUe(bs, c, s.id);
    var c2 := PlanesExact(bs, c1, s);
    UesExact(bs, c2, [s.width, s.height]);
    var c3 := Past(c2, wh);
    WindowExact(bs, c3, s.window);
    UesExact(bs, Past(c3, window), [s.lumaDepth, s.chromaDepth]);
  }

  // ---- scaling lists

  lemma MatrixExactly(bs: Bits, c: Cur, m: Matrix, sizeId: nat)
    requires m.Coded? ==> |m.coefs| == CoefsOf(sizeId)
    requires Holds(bs, c, MatrixBits(m, sizeId))
    ensures ScalingMatrix(bs, c, sizeId) == Past(c, MatrixBits(m, sizeId))
  {
    hide Holds, Past, Read, Se, Ue, SkipUe, SkipSes, SeFields;
    match m
    case Predicted(delta) =>
      var d := TakeFlag(bs, c, false, [UE(delta)]);
      d := TakeLastUe(bs, d, delta);
    case Coded(dc, coefs) =>
      var head := if sizeId > 1 then [SE(dc)] else [];
      var d := TakeFlag(bs, c, true, head + SeFields(coefs));
      HoldsSplit(bs, d, head, SeFields(coefs));
      DcExact(bs, d, dc, sizeId > 1);
      SesExact(bs, Past(d, head), coefs);
  }

  lemma DcExact(bs: Bits, c: Cur, dc: int, coded: bool)
    requires Holds(bs, c, if coded then [SE(dc)] else [])
    ensures (if coded then Se(bs, c).0 else c) == Past(c, if coded then [SE(dc)] else [])
  {
    hide Holds, Past, Se;
    if coded {
      var d := TakeSe(bs, c, [SE(dc)]);
      assert [SE(dc)][1..] == [];
      PastNone(d);
    } else {
      PastNone(c);
    }
  }

  lemma {:induction false} RowExact(bs: Bits, c: Cur, row: seq<Matrix>, sizeId: nat)
    requires forall i | 0 <= i < |row| && row[i].Coded? :: |row[i].coefs| == CoefsOf(sizeId)
    requires Holds(bs, c, RowFields(row, sizeId))
    ensures MatrixRow(bs, c, sizeId, |row|) == Past(c, RowFields(row, sizeId))
    decreases |row|
  {
    hide Holds, Past, ScalingMatrix, MatrixBits;
    if row == [] {
      PastNone(c);
    } else {
      HoldsSplit(bs, c, MatrixBits(row[0], sizeId), RowFields(row[1..], sizeId));
      MatrixExactly(bs, c, row[0], sizeId);
      RowExact(bs, Past(c, MatrixBits(row[0], sizeId)), row[1..], sizeId);
    }
  }

  lemma {:induction false} ScalingExact(bs: Bits, c: Cur, rows: seq<seq<Matrix>>, sizeId: nat)
    requires sizeId + |rows| == 4 && forall i | 0 <= i < |rows| :: RowOk(rows[i], sizeId + i)
    requires Holds(bs, c, ScalingFields(rows, sizeId))
    ensures ScalingData(bs, c, sizeId) == Past(c, ScalingFields(rows, sizeId))
    decreases |rows|
  {
    hide Holds, Past, MatrixRow, RowFields;
    if rows == [] {
      PastNone(c);
    } else {
      assert RowOk(rows[0], sizeId + 0);
      HoldsSplit(bs, c, RowFields(rows[0], sizeId), ScalingFields(rows[1..], sizeId + 1));
      RowExact(bs, c, rows[0], sizeId);
      forall i | 0 <= i < |rows| - 1
        ensures RowOk(rows[1..][i], sizeId + 1 + i)
      {
        assert RowOk(rows[i + 1], sizeId + (i + 1));
      }
      ScalingExact(bs, Past(c, RowFields(rows[0], sizeId)), rows[1..], sizeId + 1);
    }
  }

  lemma DataExact(bs: Bits, c: Cur, data: Option<seq<seq<Matrix>>>)
    requires (data.Some? ==> ScalingOk(data.value)) && Holds(bs, c, DataFields(data))
    ensures var (d, present) := Read(bs, c, 1);
            (if present != 0 then ScalingData(bs, d, 0) else d) == Past(c, DataFields(data))
  {
    hide Holds, Past, Read, ScalingData, ScalingFields, RowOk;
    var d := TakeFlag(bs, c, data.Some?, if data.Some? then ScalingFields(data.value, 0) else []);
    if data.Some? {
      ScalingExact(bs, d, data.value, 0);
    } else {
      PastNone(d);
    }
  }

  lemma ListsExact(bs: Bits, c: Cur, lists: Option<Option<seq<seq<Matrix>>>>)
    requires (lists.Some? && lists.value.Some? ==> ScalingOk(lists.value.value)) && Holds(bs, c, ListsFields(lists))
    ensures var (d, enabled) := Read(bs, c, 1);
            ListsPart(bs, d, enabled) == Past(c, ListsFields(lists))
  {
    hide Holds, Past, Read, ScalingData, DataFields, ScalingOk;
    var d := TakeFlag(bs, c, lists.Some?, if lists.Some? then DataFields(lists.value) else []);
    if lists.Some? {
      DataExact(bs, d, lists.value);
    } else {
      PastNone(d);
    }
  }

  lemma PcmExact(bs: Bits, c: Cur, p: Option<Pcm>)
    requires Holds(bs, c, PcmFields(p))
    ensures var (d, pcm) := Read(bs, c, 1);
            (if pcm != 0 then SkipU(bs, SkipUes(bs, SkipU(bs, SkipU(bs, d, 4), 4), 2), 1) else d) == Past(c, PcmFields(p))
  {
    hide Holds, Past, Read, SkipU, SkipUes, UeFields;
    match p
    case None =>
      assert PcmFields(p) == [Flag(false)] + [];
      var d := TakeFlag(bs, c, false, []);
      PastNone(d);
    case Some(x) =>
      var ues := UeFields([x.minSize, x.diffSize]);
      var d := TakeFlag(bs, c, true, [U(4, x.luma)] + ([U(4, x.chroma)] + (ues + [Flag(x.noLoop)])));
      d := TakeOneU(bs, d, 4, x.luma, [U(4, x.chroma)] + (ues + [Flag(x.noLoop)]));
      d := TakeOneU(bs, d, 4, x.chroma, ues + [Flag(x.noLoop)]);
      HoldsSplit(bs, d, ues, [Flag(x.noLoop)]);
      UesExact(bs, d, [x.minSize, x.diffSize]);
      d := TakeLastFlag(bs, Past(d, ues), x.noLoop);
  }

  lemma CodingExact(bs: Bits, c: Cur, x: Coding)
    requires CodingOk(x) && Holds(bs, c, CodingFields(x))
    ensures CodingPart(bs, c) == Past(c, CodingFields(x))
  {
    var ues, lists := UeFields(x.blocks), ListsFields(x.lists);
    var tools := [Flag(x.amp)] + ([Flag(x.sao)] + PcmFields(x.pcm));
    hide Holds, Past, Read, SkipU, SkipUes, UeFields, ListsFields, PcmFields, ListsPart, ScalingOk;
    HoldsSplit(bs, c, ues + lists, tools);
    HoldsSplit(bs, c, ues, lists);
    UesExact(bs, c, x.blocks);
    var c1 := Past(c, ues);
    ListsExact(bs, c1, x.lists);
    var c2 := Past(c1, lists);
    var c3 := TakeFlag(bs, c2, x.amp, [Flag(x.sao)] + PcmFields(x.pcm));
    var c4 := TakeFlag(bs, c3, x.sao, PcmFields(x.pcm));
    PcmExact(bs, c4, x.pcm);
  }

  lemma OrderExact(bs: Bits, c: Cur, s: Hevc)
    requires Holds(bs, c, OrderFields(s)) && CodingOk(s.coding)
    requires |s.dpb| == 3 * (if s.ordering then |s.layers.subs| + 1 else 1)
    ensures OrderPart(bs, c, |s.layers.subs|) == (Past(c, OrderFields(s)), s.log2)
  {
    var size, ues := SizeFields(s.size), UeFields(s.dpb);
    var middle := [UE(s.log2)] + ([Flag(s.ordering)] + ues);
    hide Holds, Past, Read, Ue, SkipUes, SizeFields, UeFields, CodingFields, SizePart, CodingPart, CodingOk;
    HoldsSplit(bs, c, size + middle, CodingFields(s.coding));
    HoldsSplit(bs, c, size, middle);
    SizesExact(bs, c, s.size);
    var c1 := TakeOneUe(bs, Past(c, size), s.log2, [Flag(s.ordering)] + ues);
    var c2 := TakeFlag(bs, c1, s.ordering, ues);
    UesExact(bs, c2, s.dpb);
    CodingExact(bs, Past(c2, ues), s.coding);
  }

  // ---- reference picture sets

  lemma {:induction false} StepsExact(bs: Bits, c: Cur, ps: seq<Step1>)
    requires Holds(bs, c, StepFields(ps))
    ensures Pairs(bs, c, |ps|) == Past(c, StepFields(ps))
    decreases |ps|
  {
    hide Holds, Past, Read, SkipU, SkipUe, Ue;
    if ps == [] {
      PastNone(c);
    } else {
      var d := TakeOneUe(bs, c, ps[0].minus1, [Flag(ps[0].used)] + StepFields(ps[1..]));
      d := TakeFlag(bs, d, ps[0].used, StepFields(ps[1..]));
      StepsExact(bs, d, ps[1..]);
    }
  }

  lemma OneEntry(bs: Bits, c: Cur, e: Entry, rest: seq<Field>) returns (d: Cur)
    requires Holds(bs, c, [Flag(e.used)] + ((if e.used then [] else [Flag(e.delta)]) + rest))
    ensures var (c1, used) := Read(bs, c, 1);
            var (c2, delta) := if used == 0 then Read(bs, c1, 1) else (c1, 1);
            d == c2 && (used != 0 || delta != 0 <==> e.used || e.delta)
    ensures Holds(bs, d, rest)
    ensures Past(c, [Flag(e.used)] + ((if e.used then [] else [Flag(e.delta)]) + rest)) == Past(d, rest)
  {
    hide Holds, Past, Read, SkipU;
    d := TakeFlag(bs, c, e.used, (if e.used then [] else [Flag(e.delta)]) + rest);
    if e.used {
      assert [] + rest == rest;
    } else {
      d := TakeFlag(bs, d, e.delta, rest);
    }
  }

  lemma KeptHead(es: seq<Entry>)
    requires es != []
    ensures CountTrue(Kept(es)) == (if es[0].used || es[0].delta then 1 else 0) + CountTrue(Kept(es[1..]))
  {
    assert Kept(es)[1..] == Kept(es[1..]);
  }

  lemma {:induction false} EntriesExact(bs: Bits, c: Cur, es: seq<Entry>, kept: nat)
    requires Holds(bs, c, EntryFields(es))
    ensures InterEntries(bs, c, |es|, kept) == (Past(c, EntryFields(es)), kept + CountTrue(Kept(es)))
    decreases |es|
  {
    hide Holds, Past, Read, Kept, CountTrue;
    if es == [] {
      PastNone(c);
      NoneKept();
    } else {
      var d := OneEntry(bs, c, es[0], EntryFields(es[1..]));
      KeptHead(es);
      EntriesExact(bs, d, es[1..], if es[0].used || es[0].delta then kept + 1 else kept);
    }
  }

  lemma NoneKept()
    ensures CountTrue(Kept([])) == 0
  {
  }

  lemma PastMoves(bs: Bits, c: Cur, fs: seq<Field>)
    requires Holds(bs, c, fs)
    ensures !Past(c, fs).overflow && Past(c, fs).bit <= |bs|
  {
    hide Encode, AllOk;
  }

  lemma ExplicitExact(bs: Bits, c: Cur, neg: seq<Step1>, pos: seq<Step1>)
    requires |neg| <= 64 && |pos| <= 64 && Holds(bs, c, SetBody(Explicit(neg, pos)))
    ensures var (c2, n) := Ue(bs, c);
            var (c3, p) := Ue(bs, c2);
            n == |neg| && p == |pos| && Pairs(bs, Pairs(bs, c3, n), p) == Past(c, SetBody(Explicit(neg, pos)))
  {
    hide Holds, Past, Ue, StepFields, Pairs;
    var c1 := TakeOneUe(bs, c, |neg|, [UE(|pos|)] + (StepFields(neg) + StepFields(pos)));
    var c2 := TakeOneUe(bs, c1, |pos|, StepFields(neg) + StepFields(pos));
    HoldsSplit(bs, c2, StepFields(neg), StepFields(pos));
    StepsExact(bs, c2, neg);
    StepsExact(bs, Past(c2, StepFields(neg)), pos);
  }

  lemma InterHeadExact(bs: Bits, c: Cur, s: RefSet) returns (d: Cur)
    requires s.Inter? && Holds(bs, c, SetBody(s))
    ensures d == SkipUe(bs, SkipU(bs, c, 1)) && Holds(bs, d, EntryFields(s.entries))
    ensures Past(c, SetBody(s)) == Past(d, EntryFields(s.entries))
  {
    hide Holds, Past, Read, Ue, SkipU, SkipUe, EntryFields;
    d := TakeFlag(bs, c, s.sign, [UE(s.absMinus1)] + EntryFields(s.entries));
    d := TakeOneUe(bs, d, s.absMinus1, EntryFields(s.entries));
  }

  // The flag in front of every set but the first
  lemma SetHeadExact(bs: Bits, c: Cur, s: RefSet, i: nat) returns (d: Cur)
    requires Holds(bs, c, SetFields(s, i)) && (i == 0 ==> s.Explicit?)
    ensures (if i != 0 then Read(bs, c, 1) else (c, 0)) == (d, if s.Inter? then 1 else 0)
    ensures Holds(bs, d, SetBody(s)) && Past(c, SetFields(s, i)) == Past(d, SetBody(s))
  {
    hide Holds, Past, Read, SkipU, SetBody;
    if i > 0 {
      d := TakeFlag(bs, c, s.Inter?, SetBody(s));
    } else {
      d := c;
      assert [] + SetBody(s) == SetBody(s);
    }
  }

  // One set, when the walker expects as many entries as are coded
  lemma SetExact(bs: Bits, c: Cur, s: RefSet, done: seq<nat>)
    requires Holds(bs, c, SetFields(s, |done|))
    requires match s
             case Explicit(neg, pos) => |neg| <= 64 && |pos| <= 64
             case Inter(_, _, entries) => done != [] && done[|done| - 1] + 1 == |entries|
    ensures RefPicSet(bs, c, done) == Counted(Past(c, SetFields(s, |done|)), WalkCount(s))
  {
    hide Holds, Past, Read, Ue, SkipU, SkipUe, SetFields, SetBody, EntryFields, InterEntries, Pairs, Kept, CountTrue;
    PastMoves(bs, c, SetFields(s, |done|));
    var d := SetHeadExact(bs, c, s, |done|);
    match s
    case Explicit(neg, pos) => ExplicitExact(bs, d, neg, pos);
    case Inter(_, _, entries) =>
      var e := InterHeadExact(bs, d, s);
      EntriesExact(bs, e, entries, 0);
  }

  // What the walker counts for the first n sets
  function WalkCounts(sets: seq<RefSet>, n: nat): (r: seq<nat>)
    requires n <= |sets|
    ensures |r| == n
  {
    if n == 0 then [] else WalkCounts(sets, n - 1) + [WalkCount(sets[n - 1])]
  }

  // The walker expects as many entries in set i as are coded.
  predicate Expected(sets: seq<RefSet>, i: nat)
    requires i < |sets|
  {
    match sets[i]
    case Explicit(neg, pos) => |neg| <= 64 && |pos| <= 64
    case Inter(_, _, entries) => i > 0 && WalkCount(sets[i - 1]) + 1 == |entries|
  }

  // Over sets for which the walker expects what is coded, it goes on behind them.
  lemma {:induction false} SetsExact(bs: Bits, c: Cur, sets: seq<RefSet>, i: nat, more: nat)
    requires i <= |sets| && Holds(bs, c, SetsFields(sets, i))
    requires forall j | i <= j < |sets| :: Expected(sets, j)
    ensures RefPicSets(bs, c, |sets| - i + more, WalkCounts(sets, i))
         == RefPicSets(bs, Past(c, SetsFields(sets, i)), more, WalkCounts(sets, |sets|))
    decreases |sets| - i
  {
    hide *;
    SetsUnfold(sets, i);
    if i == |sets| {
      PastNone(c);
    } else {
      assert Expected(sets, i);
      ExpectedIs(sets, i);
      LastCount(sets, i);
      HoldsSplit(bs, c, SetFields(sets[i], i), SetsFields(sets, i + 1));
      SetExact(bs, c, sets[i], WalkCounts(sets, i));
      SetsExact(bs, Past(c, SetFields(sets[i], i)), sets, i + 1, more);
      SetsWalkUnfold(bs, c, |sets| - i + more, WalkCounts(sets, i));
    }
  }

  lemma SetsUnfold(sets: seq<RefSet>, i: nat)
    requires i <= |sets|
    ensures i == |sets| ==> SetsFields(sets, i) == []
    ensures i < |sets| ==> SetsFields(sets, i) == SetFields(sets[i], i) + SetsFields(sets, i + 1)
  {
    hide SetFields;
  }

  lemma SetsWalkUnfold(bs: Bits, c: Cur, n: nat, done: seq<nat>)
    ensures n == 0 ==> RefPicSets(bs, c, n, done) == Go(c)
    ensures n > 0 ==>
              RefPicSets(bs, c, n, done)
              == match RefPicSet(bs, c, done)
                 case Rejected => Stop
                 case Counted(d, pocs) => RefPicSets(bs, d, n - 1, done + [pocs])
  {
    hide RefPicSet;
  }

  lemma ExpectedIs(sets: seq<RefSet>, i: nat)
    requires i < |sets| && Expected(sets, i)
    ensures match sets[i]
            case Explicit(neg, pos) => |neg| <= 64 && |pos| <= 64
            case Inter(_, _, entries) => i > 0 && WalkCount(sets[i - 1]) + 1 == |entries|
  {
    hide WalkCount;
  }

  lemma LastCount(sets: seq<RefSet>, i: nat)
    requires i <= |sets|
    ensures i > 0 ==> WalkCounts(sets, i)[i - 1] == WalkCount(sets[i - 1])
    ensures i < |sets| ==> WalkCounts(sets, i + 1) == WalkCounts(sets, i) + [WalkCount(sets[i])]
  {
    hide WalkCount;
  }

  // In a steady list the walker always expects what is coded.
  // What set j is coded with
  lemma SetAt(sets: seq<RefSet>, j: nat)
    requires j < |sets| && SetsOk(sets, j + 1)
    ensures match sets[j]
            case Explicit(neg, pos) => |neg| <= 64 && |pos| <= 64
            case Inter(_, _, entries) =>
              j > 0 && SetsOk(sets, j) && |entries| == NumDeltaPocs(PocsOf(sets, j)) + 1
  {
    hide NumDeltaPocs, PocsOf;
  }

  lemma ExpectedAfter(sets: seq<RefSet>, j: nat)
    requires j < |sets| && SetsOk(sets, |sets|)
    requires j > 0 && sets[j].Inter? ==> KeepsNone(sets, j - 1)
    ensures Expected(sets, j)
  {
    hide SetsOk, PocsOf, WalkCount, NumDeltaPocs, KeepsNone;
    SetsPrefix(sets, j + 1, |sets|);
    SetAt(sets, j);
    if sets[j].Inter? {
      KeepsNoneCounts(sets, j - 1);
    }
  }

  lemma SteadyExpected(sets: seq<RefSet>, i: nat)
    requires i < |sets| && SetsOk(sets, |sets|) && Steady(sets)
    ensures Expected(sets, i)
  {
    hide SetsOk, WalkCount, KeepsNone, Expected;
    if i > 0 && sets[i].Inter? {
      assert sets[(i - 1) + 1].Inter?;
    }
    ExpectedAfter(sets, i);
  }

  // ---- lists that are not steady

  // Every entry read too many moves the cursor on, or runs out of bits.
  lemma {:induction false} EntriesMove(bs: Bits, c: Cur, n: nat, kept: nat)
    ensures var d := InterEntries(bs, c, n, kept).0;
            d.bit >= c.bit && (c.overflow ==> d.overflow) && (n > 0 ==> d.overflow || d.bit > c.bit)
    decreases n
  {
    if n > 0 {
      var (c1, used) := Read(bs, c, 1);
      ReadMoves(bs, c);
      ReadMoves(bs, c1);
      var (c2, delta) := if used == 0 then Read(bs, c1, 1) else (c1, 1);
      hide Read;
      EntriesMove(bs, c2, n - 1, if used != 0 || delta != 0 then kept + 1 else kept);
    }
  }

  lemma ReadMoves(bs: Bits, c: Cur)
    ensures var d := Read(bs, c, 1).0;
            d.bit >= c.bit && (c.overflow ==> d.overflow) && (d.overflow || d.bit > c.bit)
  {
  }

  lemma {:induction false} MoreEntries(bs: Bits, c: Cur, es: seq<Entry>, more: nat, kept: nat)
    requires Holds(bs, c, EntryFields(es)) && more > 0
    ensures var d := InterEntries(bs, c, |es| + more, kept).0;
            d.overflow || d.bit > Past(c, EntryFields(es)).bit
    decreases |es|
  {
    hide Holds, Past, Read;
    if es == [] {
      PastNone(c);
      EntriesMove(bs, c, more, kept);
    } else {
      var d := OneEntry(bs, c, es[0], EntryFields(es[1..]));
      MoreEntries(bs, d, es[1..], more, if es[0].used || es[0].delta then kept + 1 else kept);
    }
  }

  // A set with fewer entries than the walker expects: it reads on behind the set.
  lemma SetStrays(bs: Bits, c: Cur, s: RefSet, done: seq<nat>)
    requires Holds(bs, c, SetFields(s, |done|)) && s.Inter? && done != []
    requires done[|done| - 1] + 1 > |s.entries|
    ensures match RefPicSet(bs, c, done)
            case Rejected => true
            case Counted(d, _) => d.bit > Past(c, SetFields(s, |done|)).bit
  {
    hide Holds, Past, Read, Ue, SkipU, SkipUe, SetFields, SetBody, EntryFields, InterEntries, Pairs;
    var d := SetHeadExact(bs, c, s, |done|);
    var e := InterHeadExact(bs, d, s);
    var more := done[|done| - 1] + 1 - |s.entries|;
    MoreEntries(bs, e, s.entries, more, 0);
    assert |s.entries| + more == done[|done| - 1] + 1;
  }

  // After the first m sets the walker stands right behind them.
  predicate OnTrack(bs: Bits, c: Cur, sets: seq<RefSet>, m: nat)
    requires m <= |sets|
  {
    RefPicSets(bs, c, m, []) == Go(Past(c, SetsFields(sets[..m], 0)))
  }

  lemma {:induction false} FirstSets(sets: seq<RefSet>, m: nat, i: nat)
    requires i <= m <= |sets|
    ensures SetsFields(sets, i) == SetsFields(sets[..m], i) + SetsFields(sets, m)
    decreases m - i
  {
    hide SetFields;
    if i == m {
      assert [] + SetsFields(sets, m) == SetsFields(sets, m);
    } else {
      FirstSets(sets, m, i + 1);
      assert SetFields(sets[i], i) + (SetsFields(sets[..m], i + 1) + SetsFields(sets, m))
          == SetFields(sets[i], i) + SetsFields(sets[..m], i + 1) + SetsFields(sets, m);
    }
  }

  lemma FirstHeld(bs: Bits, c: Cur, sets: seq<RefSet>, m: nat)
    requires m <= |sets| && Holds(bs, c, SetsFields(sets, 0))
    ensures Holds(bs, c, SetsFields(sets[..m], 0))
  {
    hide Holds, SetsFields;
    FirstSets(sets, m, 0);
    HoldsSplit(bs, c, SetsFields(sets[..m], 0), SetsFields(sets, m));
  }

  lemma SameExpected(sets: seq<RefSet>, m: nat, j: nat)
    requires j < m <= |sets| && Expected(sets, j)
    ensures Expected(sets[..m], j)
  {
    hide WalkCount;
    assert sets[..m][j] == sets[j];
    if j > 0 {
      assert sets[..m][j - 1] == sets[j - 1];
    }
  }

  lemma FirstExpected(sets: seq<RefSet>, m: nat, j: nat)
    requires j < m <= |sets| && SetsOk(sets, |sets|)
    requires forall i | 0 <= i < m - 1 && sets[i + 1].Inter? :: KeepsNone(sets, i)
    ensures Expected(sets[..m], j)
  {
    hide *;
    if j > 0 && sets[j].Inter? {
      assert sets[(j - 1) + 1].Inter?;
    }
    ExpectedAfter(sets, j);
    SameExpected(sets, m, j);
  }

  // Up to its first wrong count the list is walked exactly.
  lemma TrackedTo(bs: Bits, c: Cur, sets: seq<RefSet>, m: nat, more: nat)
    requires m <= |sets| && SetsOk(sets, |sets|) && Holds(bs, c, SetsFields(sets, 0))
    requires forall i | 0 <= i < m - 1 && sets[i + 1].Inter? :: KeepsNone(sets, i)
    ensures RefPicSets(bs, c, m + more, [])
         == RefPicSets(bs, Past(c, SetsFields(sets[..m], 0)), more, WalkCounts(sets[..m], m))
  {
    hide *;
    FirstHeld(bs, c, sets, m);
    forall j | 0 <= j < m
      ensures Expected(sets[..m], j)
    {
      FirstExpected(sets, m, j);
    }
    SetsExact(bs, c, sets[..m], 0, more);
    NoCounts(sets[..m]);
  }

  lemma StraysAt(bs: Bits, c: Cur, sets: seq<RefSet>, k: nat)
    requires k + 1 < |sets| && SetsOk(sets, |sets|) && Holds(bs, c, SetsFields(sets, 0))
    requires forall i | 0 <= i < k && sets[i + 1].Inter? :: KeepsNone(sets, i)
    requires sets[k + 1].Inter? && !KeepsNone(sets, k)
    ensures !OnTrack(bs, c, sets, k + 2)
  {
    hide *;
    var m := k + 1;
    var d := Past(c, SetsFields(sets[..m], 0));
    var done := WalkCounts(sets[..m], m);
    TooMany(sets, k);
    TrackedTo(bs, c, sets, m, 1);
    HeldBehind(bs, c, sets, m);
    SetStrays(bs, d, sets[m], done);
    SetsWalkUnfold(bs, d, 1, done);
    if RefPicSet(bs, d, done).Counted? {
      SetsWalkUnfold(bs, RefPicSet(bs, d, done).c, 0, done + [RefPicSet(bs, d, done).pocs]);
    }
    TrackIs(bs, c, sets, k + 2);
  }

  lemma TrackIs(bs: Bits, c: Cur, sets: seq<RefSet>, m: nat)
    requires m <= |sets|
    ensures OnTrack(bs, c, sets, m) <==> RefPicSets(bs, c, m, []) == Go(Past(c, SetsFields(sets[..m], 0)))
  {
    hide RefPicSets, Past, SetsFields;
  }

  // Set m stands behind the first m sets.
  lemma HeldBehind(bs: Bits, c: Cur, sets: seq<RefSet>, m: nat)
    requires m < |sets| && Holds(bs, c, SetsFields(sets, 0))
    ensures var d := Past(c, SetsFields(sets[..m], 0));
            && Holds(bs, d, SetFields(sets[m], m))
            && Past(d, SetFields(sets[m], m)) == Past(c, SetsFields(sets[..m + 1], 0))
  {
    hide Holds, Past, SetFields;
    FirstHeld(bs, c, sets, m + 1);
    FirstSets(sets[..m + 1], m, 0);
    assert sets[..m + 1][..m] == sets[..m];
    assert SetsFields(sets[..m + 1], m + 1) == [];
    assert SetsFields(sets[..m + 1], m) == SetFields(sets[m], m) + [];
    assert SetFields(sets[m], m) + [] == SetFields(sets[m], m);
    HoldsSplit(bs, c, SetsFields(sets[..m], 0), SetFields(sets[m], m));
  }

  lemma TooMany(sets: seq<RefSet>, k: nat)
    requires k + 1 < |sets| && SetsOk(sets, |sets|) && sets[k + 1].Inter? && !KeepsNone(sets, k)
    ensures var done := WalkCounts(sets[..k + 1], k + 1);
            |done| == k + 1 && done[k] + 1 > |sets[k + 1].entries|
  {
    SetsPrefix(sets, k + 2, |sets|);
    LastCount(sets[..k + 1], k + 1);
    assert sets[..k + 1][k] == sets[k];
    hide WalkCounts, WalkCount, NumDeltaPocs, KeepsNone;
    KeepsNoneCounts(sets, k);
  }

  /** Over the reference picture sets of any conforming tree, the walker stands right
      behind each set in turn if and only if no set that another is predicted from keeps
      a candidate at the current picture itself. */
  lemma TrackedIfSteady(bs: Bits, c: Cur, sets: seq<RefSet>)
    requires SetsOk(sets, |sets|) && Holds(bs, c, SetsFields(sets, 0))
    ensures (forall m | 0 <= m <= |sets| :: OnTrack(bs, c, sets, m)) <==> Steady(sets)
  {
    if Steady(sets) {
      forall m | 0 <= m <= |sets|
        ensures OnTrack(bs, c, sets, m)
      {
        SteadyTracked(bs, c, sets, m);
      }
    } else {
      var k := FirstWrong(sets);
      StraysAt(bs, c, sets, k);
    }
  }

  lemma SteadyTracked(bs: Bits, c: Cur, sets: seq<RefSet>, m: nat)
    requires SetsOk(sets, |sets|) && Holds(bs, c, SetsFields(sets, 0)) && Steady(sets) && m <= |sets|
    ensures OnTrack(bs, c, sets, m)
  {
    hide *;
    SteadyRight(sets, m);
    TrackedTo(bs, c, sets, m, 0);
    SetsWalkUnfold(bs, Past(c, SetsFields(sets[..m], 0)), 0, WalkCounts(sets[..m], m));
    TrackIs(bs, c, sets, m);
  }

  lemma SteadyRight(sets: seq<RefSet>, m: nat)
    requires m <= |sets| && SetsOk(sets, |sets|) && Steady(sets)
    ensures forall i | 0 <= i < m - 1 && sets[i + 1].Inter? :: KeepsNone(sets, i)
  {
    hide KeepsNone;
  }

  lemma FirstWrong(sets: seq<RefSet>) returns (k: nat)
    requires SetsOk(sets, |sets|) && !Steady(sets)
    ensures k + 1 < |sets| && sets[k + 1].Inter? && !KeepsNone(sets, k)
    ensures forall i | 0 <= i < k && sets[i + 1].Inter? :: KeepsNone(sets, i)
  {
    hide KeepsNone;
    var w: nat :| w < |sets| - 1 && sets[w + 1].Inter? && !KeepsNone(sets, w);
    k := 0;
    while !sets[k + 1].Inter? || KeepsNone(sets, k)
      invariant k <= w
      invariant forall i | 0 <= i < k && sets[i + 1].Inter? :: KeepsNone(sets, i)
      decreases w - k
    {
      k := k + 1;
    }
  }

  /** There are such sets: one picture after the current one, predicted from with the
      distance -1 and kept, is the current picture itself. The standard then lists one
      picture, and the walker counts two. */
  lemma SomeAreNotSteady()
    ensures var sets := [Explicit([], [Step1(0, true)]),
                         Inter(true, 0, [Entry(true, false), Entry(true, false)]),
                         Inter(true, 0, [Entry(true, false), Entry(true, false)])];
            SetsOk(sets, 3) && !Steady(sets)
  {
    var sets := [Explicit([], [Step1(0, true)]),
                 Inter(true, 0, [Entry(true, false), Entry(true, false)]),
                 Inter(true, 0, [Entry(true, false), Entry(true, false)])];
    var ref := Pocs([], [1]);
    assert Distances([], 0, -1) == [] && Distances([Step1(0, true)], 0, 1) == [1];
    assert SetsOk(sets, 1) && PocsOf(sets, 1) == ref;
    OnePredicted(ref, sets[1]);
    assert SetsOk(sets, 2) && PocsOf(sets, 2) == Pocs([-1], []);
    assert SetsOk(sets, 3);
    OneAtZero(ref, sets[1]);
    assert !KeepsNone(sets, 1);
  }

  lemma PredictOne(s: RefSet)
    requires s.Inter? && |s.entries| == 2 && DeltaRps(s) == -1 && Kept(s.entries) == [true, true]
    ensures Predict(Pocs([], [1]), s)
         == Pocs(Side(Turned(MovedBy([1], -1)), Turned([true]), -1) + Side([-1], [true], -1) + Side(MovedBy([], -1), [], -1),
                 Side(Turned(MovedBy([], -1)), Turned([]), 1) + Side([-1], [true], 1) + Side(MovedBy([1], -1), [true], 1))
  {
    var kept := Kept(s.entries);
    assert kept[..0] == [] && kept[0..1] == [true] && [kept[1]] == [true];
    hide Side, Turned, MovedBy, Kept, DeltaRps;
  }

  lemma OneMoved()
    ensures MovedBy([], -1) == [] && MovedBy([1], -1) == [0]
    ensures CountTrue([true, true]) == 2
  {
    assert [true, true][1..] == [true] && [true][1..] == [];
  }

  lemma OneSet(s: RefSet)
    requires s == Inter(true, 0, [Entry(true, false), Entry(true, false)])
    ensures DeltaRps(s) == -1 && Kept(s.entries) == [true, true] && WalkCount(s) == CountTrue(Kept(s.entries))
  {
    hide CountTrue;
  }

  lemma OnePredicted(ref: Pocs, s: RefSet)
    requires ref == Pocs([], [1]) && s == Inter(true, 0, [Entry(true, false), Entry(true, false)])
    ensures Predict(ref, s) == Pocs([-1], []) && WalkCount(s) == 2
  {
    hide *;
    OneSet(s);
    PredictOne(s);
    OneMoved();
    OneSide();
    assert [] + [-1] + [] == [-1];
  }

  lemma OneAtZero(ref: Pocs, s: RefSet)
    requires ref == Pocs([], [1]) && s == Inter(true, 0, [Entry(true, false), Entry(true, false)])
    ensures AtZero(Candidates(ref, s), Kept(s.entries)) == 1
  {
    OneSet(s);
    hide Kept, DeltaRps;
    assert Candidates(ref, s) == [0, -1];
    assert [true, true][1..] == [true] && [0, -1][1..] == [-1] && [true][1..] == [] && [-1][1..] == [];
  }

  lemma OneSide()
    ensures Turned([0]) == [0] && Turned([true]) == [true] && Turned<int>([]) == [] && Turned<bool>([]) == []
    ensures Side([0], [true], -1) == [] && Side([0], [true], 1) == []
    ensures Side([-1], [true], -1) == [-1] && Side([-1], [true], 1) == []
    ensures Side([], [], -1) == [] && Side([], [], 1) == []
  {
  }

  // ---- long-term pictures, and the whole

  lemma {:induction false} LongPicsExact(bs: Bits, c: Cur, ps: seq<LongTermPic>, bits: nat)
    requires Holds(bs, c, LongPics(ps, bits))
    ensures LongTerm(bs, c, bits, |ps|) == Past(c, LongPics(ps, bits))
    decreases |ps|
  {
    hide Holds, Past, Read, SkipU;
    if ps == [] {
      PastNone(c);
    } else {
      var d := TakeOneU(bs, c, bits, ps[0].lsb, [Flag(ps[0].used)] + LongPics(ps[1..], bits));
      d := TakeFlag(bs, d, ps[0].used, LongPics(ps[1..], bits));
      LongPicsExact(bs, d, ps[1..], bits);
    }
  }

  lemma LongExact(bs: Bits, c: Cur, long: Option<seq<LongTermPic>>, log2: nat)
    requires log2 <= 12 && (long.Some? ==> |long.value| <= 32) && Holds(bs, c, LongFields(long, log2 + 4))
    ensures LongPart(bs, c, log2) == Go(Past(c, LongFields(long, log2 + 4)))
  {
    LsbBits(log2);
    hide Holds, Past, Read, Ue, LongPics, LongTerm, PocLsbBits;
    var d := TakeFlag(bs, c, long.Some?, if long.Some? then [UE(|long.value|)] + LongPics(long.value, log2 + 4) else []);
    if long.Some? {
      d := TakeOneUe(bs, d, |long.value|, LongPics(long.value, log2 + 4));
      LongPicsExact(bs, d, long.value, log2 + 4);
    } else {
      PastNone(d);
    }
  }

  lemma LsbBits(log2: nat)
    requires log2 <= 12
    ensures PocLsbBits(log2) == log2 + 4
  {
  }

  lemma RefUnfold(bs: Bits, c: Cur, log2: nat, d: Cur, n: nat, e: Cur)
    requires Ue(bs, c) == (d, n) && n <= 64 && RefPicSets(bs, d, n, []) == Go(e)
    ensures RefPart(bs, c, log2) == LongPart(bs, e, log2)
  {
    hide Ue, RefPicSets, LongPart;
  }

  lemma AllSetsExact(bs: Bits, c: Cur, sets: seq<RefSet>)
    requires SetsOk(sets, |sets|) && Steady(sets) && Holds(bs, c, SetsFields(sets, 0))
    ensures RefPicSets(bs, c, |sets|, []) == Go(Past(c, SetsFields(sets, 0)))
  {
    hide *;
    forall j | 0 <= j < |sets|
      ensures Expected(sets, j)
    {
      SteadyExpected(sets, j);
    }
    SetsExact(bs, c, sets, 0, 0);
    NoCounts(sets);
    SetsWalkUnfold(bs, Past(c, SetsFields(sets, 0)), 0, WalkCounts(sets, |sets|));
  }

  lemma NoCounts(sets: seq<RefSet>)
    ensures WalkCounts(sets, 0) == []
  {
  }

  lemma RefsExact(bs: Bits, c: Cur, s: Hevc)
    requires |s.sets| <= 64 && SetsOk(s.sets, |s.sets|) && Steady(s.sets)
    requires s.log2 <= 12 && (s.long.Some? ==> |s.long.value| <= 32)
    requires Holds(bs, c, RefFields(s))
    ensures RefPart(bs, c, s.log2) == Go(Past(c, RefFields(s)))
  {
    hide *;
    var long := LongFields(s.long, s.log2 + 4);
    RefFieldsAre(s);
    HoldsSplit(bs, c, [UE(|s.sets|)] + SetsFields(s.sets, 0), long);
    var d := TakeOneUe(bs, c, |s.sets|, SetsFields(s.sets, 0));
    AllSetsExact(bs, d, s.sets);
    var e := Past(d, SetsFields(s.sets, 0));
    LongExact(bs, e, s.long, s.log2);
    RefUnfold(bs, c, s.log2, d, |s.sets|, e);
  }

  lemma RefFieldsAre(s: Hevc)
    ensures RefFields(s) == [UE(|s.sets|)] + SetsFields(s.sets, 0) + LongFields(s.long, s.log2 + 4)
  {
    hide SetsFields, LongFields;
  }

  lemma HevcParts(bs: Bits, s: Hevc)
    requires HevcOk(s) && Steady(s.sets) && Holds(bs, START, HevcFields(s))
    ensures H265Walk(bs) == if HevcHasFlag(s) then Found(Past(START, HevcFields(s)).bit) else Absent
  {
    var top, order, refs := TopFields(s), OrderFields(s), RefFields(s);
    var tail := [Flag(s.mvp)] + ([Flag(s.strong)] + VuiFields(s.vui));
    hide Holds, Past, Read, SkipU, TopFields, OrderFields, RefFields, VuiFields, LayerPart, OrderPart, RefPart, VuiPart,
      AllOk, SetsOk, Steady, CodingOk;
    HoldsSplit(bs, START, top + order + refs, tail);
    HoldsSplit(bs, START, top + order, refs);
    HoldsSplit(bs, START, top, order);
    TopExact(bs, s);
    var c1 := Past(START, top);
    OrderExact(bs, c1, s);
    var c2 := Past(c1, order);
    RefsExact(bs, c2, s);
    var c3 := Past(c2, refs);
    var c4 := TakeFlag(bs, c3, s.mvp, [Flag(s.strong)] + VuiFields(s.vui));
    var c5 := TakeFlag(bs, c4, s.strong, VuiFields(s.vui));
    VuiExactly(bs, c5, s.vui);
  }

  /** The walk is exact. For every conforming syntax tree whose reference picture sets
      are steady, whatever bits follow, the walker returns the offset of
      video_full_range_flag, or "absent" when the tree has no video_signal_type block. */
  lemma HevcWalkIsExact(bs: Bits, s: Hevc)
    requires HevcOk(s) && Steady(s.sets) && At(bs, 0, HevcBits(s))
    ensures H265Walk(bs) == if HevcHasFlag(s) then Found(|HevcBits(s)|) else Absent
  {
    hide At, Encode, HevcFields, H265Walk, Steady, SetsOk;
    HevcParts(bs, s);
  }
}
