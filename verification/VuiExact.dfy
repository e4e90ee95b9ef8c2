/** The H.264 walk is exact: over the bits of any conforming parameter set it
    ends on video_full_range_flag, or reports that there is none.

    The syntax tree up to the flag is written out as a list of fields. For each part
    of the tree one lemma says that the walk's reader for that part, started at the
    first of its bits, stops right behind the last one, whatever comes next. Where the
    walk skips values it does not need, the lemma counts them.

    `WalkIsExact` joins these along the tree. */
module VuiExact {
  import opened Basics
  import opened VuiEscape
  import opened VuiBits
  import opened VuiWalk
  import opened VuiSyntax

  lemma PastNone(c: Cur)
    ensures Past(c, []) == c
  {
  }

  lemma TakeFlag(bs: Bits, c: Cur, b: bool, rest: seq<Field>) returns (d: Cur)
    requires Holds(bs, c, [Flag(b)] + rest)
    ensures Read(bs, c, 1) == (d, if b then 1 else 0) && SkipU(bs, c, 1) == d
    ensures Holds(bs, d, rest) && Past(c, [Flag(b)] + rest) == Past(d, rest)
  {
    var fs := [Flag(b)] + rest;
    assert fs[0] == Flag(b) && fs[1..] == rest;
    hide Holds, Past, Read, SkipU;
    d := TakeU(bs, c, fs);
  }

  lemma {:induction false} SesExact(bs: Bits, c: Cur, ks: seq<int>)
    requires Holds(bs, c, SeFields(ks))
    ensures SkipSes(bs, c, |ks|) == Past(c, SeFields(ks))
    decreases |ks|
  {
    hide Se, Holds, Past;
    if ks == [] {
      PastNone(c);
    } else {
      assert SeFields(ks)[0] == SE(ks[0]) && SeFields(ks)[1..] == SeFields(ks[1..]);
      var d := TakeSe(bs, c, SeFields(ks));
      SesExact(bs, d, ks[1..]);
    }
  }

  // ---- scaling lists

  lemma {:induction false} ListStops(bs: Bits, c: Cur, j: nat, size: nat, last: int)
    ensures ScalingList(bs, c, j, size, last, 0) == c
    decreases size - j
  {
    if j < size {
      ListStops(bs, c, j + 1, size, last);
    }
  }

  lemma {:induction false} ListExact(bs: Bits, c: Cur, deltas: ListDeltas, j: nat, size: nat, last: int, next: int)
    requires 0 <= last < 256 && ListOk(deltas, j, size, last, next) && Holds(bs, c, SeFields(deltas))
    ensures ScalingList(bs, c, j, size, last, next) == Past(c, SeFields(deltas))
    decreases size - j
  {
    hide Se, Holds, Past;
    if j >= size {
      PastNone(c);
    } else if next == 0 {
      PastNone(c);
      ListStops(bs, c, j, size, last);
    } else {
      assert SeFields(deltas)[0] == SE(deltas[0]) && SeFields(deltas)[1..] == SeFields(deltas[1..]);
      var d := TakeSe(bs, c, SeFields(deltas));
      var n := (last + deltas[0] + 256) % 256;
      assert Rem256(last + deltas[0] + 256) == n;
      ListExact(bs, d, deltas[1..], j + 1, size, if n == 0 then last else n, n);
    }
  }

  lemma OneListExact(bs: Bits, c: Cur, l: Option<ListDeltas>, size: nat)
    requires l.Some? ==> ListOk(l.value, 0, size, 8, 8)
    requires Holds(bs, c, ListFields(l))
    ensures var (d, present) := Read(bs, c, 1);
            (if present != 0 then ScalingList(bs, d, 0, size, 8, 8) else d) == Past(c, ListFields(l))
  {
    var rest := if l.Some? then SeFields(l.value) else [];
    hide Read, Holds, Past, ScalingList, ListOk;
    var d := TakeFlag(bs, c, l.Some?, rest);
    if l.Some? {
      ListExact(bs, d, l.value, 0, size, 8, 8);
    } else {
      PastNone(d);
    }
  }

  lemma {:induction false} MatrixExact(bs: Bits, c: Cur, lists: seq<Option<ListDeltas>>, i: nat)
    requires MatrixOk(lists, i) && Holds(bs, c, MatrixFields(lists))
    ensures ScalingLists(bs, c, i, i + |lists|) == Past(c, MatrixFields(lists))
    decreases |lists|
  {
    hide Read, Holds, Past, ScalingList, ListOk, ListFields;
    if lists == [] {
      PastNone(c);
    } else {
      HoldsSplit(bs, c, ListFields(lists[0]), MatrixFields(lists[1..]));
      OneListExact(bs, c, lists[0], ListSize(i));
      var d := Past(c, ListFields(lists[0]));
      MatrixExact(bs, d, lists[1..], i + 1);
    }
  }

  // ---- the parts

  lemma DepthExact(bs: Bits, c: Cur, h: High) returns (d: Cur)
    requires Holds(bs, c, [UE(h.lumaDepth), UE(h.chromaDepth), Flag(h.bypass), Flag(h.matrix.Some?)])
    ensures d == Past(c, [UE(h.lumaDepth), UE(h.chromaDepth), Flag(h.bypass), Flag(h.matrix.Some?)])
    ensures Read(bs, SkipU(bs, SkipUe(bs, SkipUe(bs, c)), 1), 1) == (d, if h.matrix.Some? then 1 else 0)
  {
    hide Read, Ue, Holds, Past, SkipU, SkipUe;
    var fs := [UE(h.lumaDepth), UE(h.chromaDepth), Flag(h.bypass), Flag(h.matrix.Some?)];
    var c1 := TakeUe(bs, c, fs);
    var c2 := TakeUe(bs, c1, fs[1..]);
    assert fs[1..][1..] == [Flag(h.bypass)] + [Flag(h.matrix.Some?)];
    var c3 := TakeFlag(bs, c2, h.bypass, [Flag(h.matrix.Some?)]);
    assert [Flag(h.matrix.Some?)] == [Flag(h.matrix.Some?)] + [];
    d := TakeFlag(bs, c3, h.matrix.Some?, []);
    PastNone(d);
  }

  lemma ChromaExact(bs: Bits, c: Cur, h: High) returns (d: Cur)
    requires Holds(bs, c, [UE(h.chroma)] + (if h.chroma == 3 then [Flag(h.separate)] else []))
    ensures d == Past(c, [UE(h.chroma)] + (if h.chroma == 3 then [Flag(h.separate)] else []))
    ensures var (c1, chroma) := Ue(bs, c);
            chroma == h.chroma && d == if chroma == 3 then SkipU(bs, c1, 1) else c1
  {
    hide Read, Ue, Holds, Past, SkipU;
    var rest := if h.chroma == 3 then [Flag(h.separate)] else [];
    assert ([UE(h.chroma)] + rest)[1..] == rest;
    d := TakeUe(bs, c, [UE(h.chroma)] + rest);
    if h.chroma == 3 {
      assert rest == [Flag(h.separate)] + [];
      d := TakeFlag(bs, d, h.separate, []);
    }
    PastNone(d);
  }

  lemma HighExact(bs: Bits, c: Cur, h: High)
    requires HighOk(h) && Holds(bs, c, HighFields(h))
    ensures HighPart(bs, c) == Past(c, HighFields(h))
  {
    var head := [UE(h.chroma)] + (if h.chroma == 3 then [Flag(h.separate)] else []);
    var depth := [UE(h.lumaDepth), UE(h.chromaDepth), Flag(h.bypass), Flag(h.matrix.Some?)];
    var tail := if h.matrix.Some? then MatrixFields(h.matrix.value) else [];
    assert HighFields(h) == head + depth + tail;
    hide Read, Ue, Holds, Past, SkipU, SkipUe, HighFields, MatrixFields, ScalingLists, MatrixOk;
    HoldsSplit(bs, c, head + depth, tail);
    HoldsSplit(bs, c, head, depth);
    var c2 := ChromaExact(bs, c, h);
    var c4 := DepthExact(bs, c2, h);
    if h.matrix.Some? {
      MatrixExact(bs, c4, h.matrix.value, 0);
    } else {
      PastNone(c4);
    }
  }

  lemma Poc1Exact(bs: Bits, c: Cur, p: Poc) returns (d: Cur)
    requires p.Poc1? && Holds(bs, c, [Flag(p.alwaysZero), SE(p.nonRef), SE(p.topBottom), UE(|p.offsets|)] + SeFields(p.offsets))
    ensures Ue(bs, SkipSes(bs, SkipU(bs, c, 1), 2)) == (d, |p.offsets|)
    ensures Holds(bs, d, SeFields(p.offsets))
    ensures Past(c, [Flag(p.alwaysZero), SE(p.nonRef), SE(p.topBottom), UE(|p.offsets|)] + SeFields(p.offsets))
         == Past(d, SeFields(p.offsets))
  {
    var ses := SeFields(p.offsets);
    var fs := [Flag(p.alwaysZero), SE(p.nonRef), SE(p.topBottom), UE(|p.offsets|)] + ses;
    hide Read, Ue, Se, Holds, Past, SkipU, SeFields;
    var c1 := TakeU(bs, c, fs);
    var c2 := TakeSe(bs, c1, fs[1..]);
    var c3 := TakeSe(bs, c2, fs[1..][1..]);
    TwoSes(bs, c1, c2, c3);
    d := TakeUe(bs, c3, fs[1..][1..][1..]);
    assert fs[1..][1..][1..][1..] == ses;
  }

  lemma TwoSes(bs: Bits, c1: Cur, c2: Cur, c3: Cur)
    requires Se(bs, c1).0 == c2 && Se(bs, c2).0 == c3
    ensures SkipSes(bs, c1, 2) == c3
  {
    hide Se;
    assert SkipSes(bs, c1, 2) == SkipSes(bs, c2, 1) == SkipSes(bs, c3, 0);
  }

  lemma PocExact(bs: Bits, c: Cur, log2Frame: nat, p: Poc)
    requires Holds(bs, c, PocFields(log2Frame, p)) && (p.Poc1? ==> |p.offsets| <= 255)
    ensures PocPart(bs, c) == Go(Past(c, PocFields(log2Frame, p)))
  {
    var fs := PocFields(log2Frame, p);
    hide Read, Ue, Se, Holds, Past, SkipU, SkipUe, SkipSes;
    var c1 := TakeUe(bs, c, fs);
    var c2 := TakeUe(bs, c1, fs[1..]);
    match p
    case Poc0(log2) =>
      var c3 := TakeUe(bs, c2, fs[1..][1..]);
      assert fs[1..][1..][1..] == [];
      PastNone(c3);
    case Poc1(zero, nonRef, tb, offsets) =>
      assert fs[1..][1..] == [Flag(zero), SE(nonRef), SE(tb), UE(|offsets|)] + SeFields(offsets);
      var c4 := Poc1Exact(bs, c2, p);
      SesExact(bs, c4, offsets);
    case Poc2 =>
      assert fs[1..][1..] == [];
      PastNone(c2);
  }

  lemma {:induction false} UesStep(bs: Bits, c: Cur, n: nat)
    requires n > 0
    ensures SkipUes(bs, c, n) == SkipUes(bs, SkipUe(bs, c), n - 1)
    ensures n == 1 ==> SkipUes(bs, c, n) == SkipUe(bs, c)
  {
  }

  lemma SizeExact(bs: Bits, c: Cur, f: Frame) returns (d: Cur)
    requires Holds(bs, c, [UE(f.refs), Flag(f.gaps), UE(f.width), UE(f.height), Flag(f.frameOnly)])
    ensures d == Past(c, [UE(f.refs), Flag(f.gaps), UE(f.width), UE(f.height), Flag(f.frameOnly)])
    ensures Read(bs, SkipUes(bs, SkipU(bs, SkipUe(bs, c), 1), 2), 1) == (d, if f.frameOnly then 1 else 0)
  {
    var fs := [UE(f.refs), Flag(f.gaps), UE(f.width), UE(f.height), Flag(f.frameOnly)];
    hide Read, Ue, Holds, Past, SkipU, SkipUe, SkipUes;
    var c1 := TakeUe(bs, c, fs);
    var c2 := TakeU(bs, c1, fs[1..]);
    var c3 := TakeUe(bs, c2, fs[1..][1..]);
    var c4 := TakeUe(bs, c3, fs[1..][1..][1..]);
    UesStep(bs, c2, 2);
    UesStep(bs, c3, 1);
    assert fs[1..][1..][1..][1..] == [Flag(f.frameOnly)] + [];
    d := TakeFlag(bs, c4, f.frameOnly, []);
    PastNone(d);
  }

  lemma CropExact(bs: Bits, c: Cur, x: Crop)
    requires Holds(bs, c, [UE(x.left), UE(x.right), UE(x.top), UE(x.bottom)])
    ensures SkipUes(bs, c, 4) == Past(c, [UE(x.left), UE(x.right), UE(x.top), UE(x.bottom)])
  {
    var fs := [UE(x.left), UE(x.right), UE(x.top), UE(x.bottom)];
    hide Ue, Holds, Past, SkipUe, SkipUes;
    var c1 := TakeUe(bs, c, fs);
    var c2 := TakeUe(bs, c1, fs[1..]);
    var c3 := TakeUe(bs, c2, fs[1..][1..]);
    var c4 := TakeUe(bs, c3, fs[1..][1..][1..]);
    assert fs[1..][1..][1..][1..] == [];
    UesStep(bs, c, 4);
    UesStep(bs, c1, 3);
    UesStep(bs, c2, 2);
    UesStep(bs, c3, 1);
    PastNone(c4);
  }

  lemma FrameExact(bs: Bits, c: Cur, f: Frame)
    requires Holds(bs, c, FrameFields(f))
    ensures FramePart(bs, c) == Past(c, FrameFields(f))
  {
    var size := [UE(f.refs), Flag(f.gaps), UE(f.width), UE(f.height), Flag(f.frameOnly)];
    var mb := if f.frameOnly then [] else [Flag(f.adaptive)];
    var flags := [Flag(f.direct), Flag(f.crop.Some?)];
    var crop := match f.crop case None => [] case Some(x) => [UE(x.left), UE(x.right), UE(x.top), UE(x.bottom)];
    assert FrameFields(f) == size + mb + flags + crop;
    hide Read, Ue, Holds, Past, SkipU, SkipUe, SkipUes, FrameFields;
    HoldsSplit(bs, c, size + mb + flags, crop);
    HoldsSplit(bs, c, size + mb, flags);
    HoldsSplit(bs, c, size, mb);
    var c2 := SizeExact(bs, c, f);
    FieldPairExact(bs, c2, f);
    var c3 := Past(c2, mb);
    var c5 := FlagsExact(bs, c3, f);
    if f.crop.Some? {
      CropExact(bs, c5, f.crop.value);
    } else {
      PastNone(c5);
    }
  }

  // mb_adaptive_frame_field_flag is there only when frames may be fields.
  lemma FieldPairExact(bs: Bits, c: Cur, f: Frame)
    requires Holds(bs, c, if f.frameOnly then [] else [Flag(f.adaptive)])
    ensures (if f.frameOnly then c else SkipU(bs, c, 1)) == Past(c, if f.frameOnly then [] else [Flag(f.adaptive)])
  {
    hide Read, Holds, Past, SkipU;
    if f.frameOnly {
      PastNone(c);
    } else {
      assert [Flag(f.adaptive)] == [Flag(f.adaptive)] + [];
      var d := TakeFlag(bs, c, f.adaptive, []);
      PastNone(d);
    }
  }

  lemma FlagsExact(bs: Bits, c: Cur, f: Frame) returns (d: Cur)
    requires Holds(bs, c, [Flag(f.direct), Flag(f.crop.Some?)])
    ensures d == Past(c, [Flag(f.direct), Flag(f.crop.Some?)])
    ensures Read(bs, SkipU(bs, c, 1), 1) == (d, if f.crop.Some? then 1 else 0)
  {
    hide Read, Holds, Past, SkipU;
    assert [Flag(f.direct), Flag(f.crop.Some?)] == [Flag(f.direct)] + [Flag(f.crop.Some?)];
    var c1 := TakeFlag(bs, c, f.direct, [Flag(f.crop.Some?)]);
    assert [Flag(f.crop.Some?)] == [Flag(f.crop.Some?)] + [];
    d := TakeFlag(bs, c1, f.crop.Some?, []);
    PastNone(d);
  }

  lemma AspectExact(bs: Bits, c: Cur, a: Option<Aspect>)
    requires Holds(bs, c, AspectFields(a))
    ensures AspectPart(bs, c) == Past(c, AspectFields(a))
  {
    var rest := AspectFields(a)[1..];
    assert AspectFields(a) == [Flag(a.Some?)] + rest;
    hide Read, Holds, Past, SkipU;
    var c1 := TakeFlag(bs, c, a.Some?, rest);
    if a.Some? {
      var c2 := TakeU(bs, c1, rest);
      if a.value.idc == 255 {
        var c3 := TakeU(bs, c2, rest[1..]);
        var c4 := TakeU(bs, c3, rest[1..][1..]);
        assert rest[1..][1..][1..] == [];
        PastNone(c4);
      } else {
        assert rest[1..] == [];
        PastNone(c2);
      }
    } else {
      assert rest == [];
      PastNone(c1);
    }
  }

  lemma OverscanExact(bs: Bits, c: Cur, o: Option<bool>)
    requires Holds(bs, c, OverscanFields(o))
    ensures SkipIf(bs, c, 1) == Past(c, OverscanFields(o))
  {
    var rest := if o.Some? then [Flag(o.value)] else [];
    hide Read, Holds, Past, SkipU;
    var d := TakeFlag(bs, c, o.Some?, rest);
    if o.Some? {
      assert rest == [Flag(o.value)] + [];
      d := TakeFlag(bs, d, o.value, []);
    }
    PastNone(d);
  }

  lemma SignalExact(bs: Bits, c: Cur, signal: Option<Signal>)
    requires Holds(bs, c, [Flag(signal.Some?)] + (if signal.Some? then [U(3, signal.value.format)] else []))
    ensures var (c3, present) := Read(bs, c, 1);
            && !c3.overflow && (present != 0 <==> signal.Some?)
            && (present != 0 ==>
                  var d := SkipU(bs, c3, 3);
                  !d.overflow && d == Past(c, [Flag(signal.Some?)] + [U(3, signal.value.format)]))
  {
    var rest := if signal.Some? then [U(3, signal.value.format)] else [];
    hide Read, Holds, Past, SkipU;
    var d := TakeFlag(bs, c, signal.Some?, rest);
    HoldsMoves(bs, d, rest);
    if signal.Some? {
      assert rest[1..] == [];
      d := TakeU(bs, d, rest);
      HoldsMoves(bs, d, []);
      PastNone(d);
    }
  }

  lemma VuiExactly(bs: Bits, c: Cur, v: Option<Vui>)
    requires Holds(bs, c, VuiFields(v))
    ensures VuiPart(bs, c)
         == if v.Some? && v.value.signal.Some? then Found(Past(c, VuiFields(v)).bit) else Absent
  {
    var rest := VuiFields(v)[1..];
    assert VuiFields(v) == [Flag(v.Some?)] + rest;
    hide Read, Holds, Past, SkipU, SkipIf, AspectPart, AspectFields, OverscanFields;
    var c1 := TakeFlag(bs, c, v.Some?, rest);
    HoldsMoves(bs, c1, rest);
    if v.Some? {
      var x := v.value;
      var signal := [Flag(x.signal.Some?)] + (if x.signal.Some? then [U(3, x.signal.value.format)] else []);
      assert rest == AspectFields(x.aspect) + OverscanFields(x.overscan) + signal;
      HoldsSplit(bs, c1, AspectFields(x.aspect) + OverscanFields(x.overscan), signal);
      HoldsSplit(bs, c1, AspectFields(x.aspect), OverscanFields(x.overscan));
      AspectExact(bs, c1, x.aspect);
      var c2 := Past(c1, AspectFields(x.aspect));
      OverscanExact(bs, c2, x.overscan);
      SignalExact(bs, Past(c2, OverscanFields(x.overscan)), x.signal);
    }
  }

  lemma HeadExact(bs: Bits, s: Sps)
    requires Holds(bs, START, HeadFields(s))
    ensures HeadPart(bs) == (Past(START, HeadFields(s)), s.profile)
  {
    var fs := HeadFields(s);
    hide Read, Ue, Holds, Past, SkipU, SkipUe;
    var c1 := TakeU(bs, START, fs);
    var c2 := TakeU(bs, c1, fs[1..]);
    var c3 := TakeU(bs, c2, fs[1..][1..]);
    var c4 := TakeUe(bs, c3, fs[1..][1..][1..]);
    assert fs[1..][1..][1..][1..] == [];
    PastNone(c4);
  }

  // The walker's list of profiles is the one of section 7.3.2.1.1.
  lemma SameProfiles(profile: nat)
    ensures HighProfile(profile) <==> WithChroma(profile)
  {
  }

  lemma PartsExact(bs: Bits, s: Sps)
    requires SpsOk(s) && Holds(bs, START, SpsFields(s))
    ensures H264Walk(bs) == if HasFlag(s) then Found(Past(START, SpsFields(s)).bit) else Absent
  {
    var head, poc, frame := HeadFields(s), PocFields(s.log2Frame, s.poc), FrameFields(s.frame);
    var high := if WithChroma(s.profile) then HighFields(s.high) else [];
    assert SpsFields(s) == head + high + poc + frame + VuiFields(s.vui);
    SameProfiles(s.profile);
    hide Holds, Past, HighOk, HighProfile, WithChroma, HeadFields, HighFields, PocFields, FrameFields, VuiFields, SpsFields,
      HeadPart, HighPart, PocPart, FramePart, VuiPart, AllOk;
    HoldsSplit(bs, START, head + high + poc + frame, VuiFields(s.vui));
    HoldsSplit(bs, START, head + high + poc, frame);
    HoldsSplit(bs, START, head + high, poc);
    HoldsSplit(bs, START, head, high);
    HeadExact(bs, s);
    var c1 := Past(START, head);
    if WithChroma(s.profile) {
      HighExact(bs, c1, s.high);
    } else {
      PastNone(c1);
    }
    var c2 := Past(c1, high);
    PocExact(bs, c2, s.log2Frame, s.poc);
    FrameExact(bs, Past(c2, poc), s.frame);
    VuiExactly(bs, Past(Past(c2, poc), frame), s.vui);
  }

  /** The walk is exact. For every conforming syntax tree, whatever bits follow,
      the walker returns the offset of video_full_range_flag, or "absent" when
      the tree has no video_signal_type block. */
  lemma WalkIsExact(bs: Bits, s: Sps)
    requires SpsOk(s) && At(bs, 0, BitsBeforeFlag(s))
    ensures H264Walk(bs) == if HasFlag(s) then Found(|BitsBeforeFlag(s)|) else Absent
  {
    hide At, Encode, SpsFields, H264Walk;
    PartsExact(bs, s);
  }
}
