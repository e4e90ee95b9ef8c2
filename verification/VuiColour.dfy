/** The colour description behind video_full_range_flag: where matrix_coefficients is,
    and what an edit of it does to a conforming parameter set. */
module VuiColour {
  import opened Basics
  import opened VuiEscape
  import opened VuiBits
  import opened VuiWalk
  import opened VuiSyntax
  import opened VuiExact
  import opened VuiHevc
  import opened VuiHevcExact
  import opened VuiEdit

  // ---- where the field is

  predicate HasColour(v: Option<Vui>) {
    v.Some? && v.value.signal.Some? && v.value.signal.value.colour.Some?
  }

  function MatrixIn(v: Option<Vui>): nat
    requires HasColour(v)
  {
    v.value.signal.value.colour.value.matrix
  }

  function WithMatrix(v: Option<Vui>, m: nat): Option<Vui>
    requires HasColour(v)
  {
    var g := v.value.signal.value;
    Some(v.value.(signal := Some(g.(colour := Some(g.colour.value.(matrix := m))))))
  }

  lemma PastBits(c: Cur, n: nat, v: nat)
    ensures Past(c, [U(n, v)]).bit == c.bit + n && Past(c, [U(n, v)]).overflow == c.overflow
  {
    assert [U(n, v)][1..] == [];
    assert Encode([U(n, v)]) == UBits(n, v) + Encode([]);
  }

  /** From the flag the walk passes colour_primaries and transfer_characteristics and
      ends on matrix_coefficients, or reports that there is no colour description. */
  lemma MatrixWalkIsExact(bs: Bits, c: Cur, g: Signal)
    requires Holds(bs, c, ColourFields(g))
    ensures Past(c, ColourFields(g)).bit >= c.bit + (if g.colour.Some? then 8 else 0)
    ensures MatrixWalk(bs, c.bit) == if g.colour.Some? then Found(Past(c, ColourFields(g)).bit - 8) else Absent
    ensures g.colour.Some? ==>
              Read(bs, Cur(Past(c, ColourFields(g)).bit - 8, false), 8).1 == g.colour.value.matrix
  {
    hide Holds, Past, Read, SkipU;
    HoldsMoves(bs, c, ColourFields(g));
    assert c == Cur(c.bit, false);
    var tail := if g.colour.Some? then
                  [U(8, g.colour.value.primaries)] + ([U(8, g.colour.value.transfer)] + [U(8, g.colour.value.matrix)])
                else [];
    var c1 := TakeFlag(bs, c, g.fullRange, [Flag(g.colour.Some?)] + tail);
    var c2 := TakeFlag(bs, c1, g.colour.Some?, tail);
    HoldsMoves(bs, c2, tail);
    if g.colour.Some? {
      var x := g.colour.value;
      var c3 := TakeOneU(bs, c2, 8, x.primaries, [U(8, x.transfer)] + [U(8, x.matrix)]);
      var c4 := TakeOneU(bs, c3, 8, x.transfer, [U(8, x.matrix)]);
      HoldsMoves(bs, c4, [U(8, x.matrix)]);
      PastBits(c4, 8, x.matrix);
      LastMatrix(bs, c4, x.matrix);
    } else {
      PastNone(c2);
    }
  }

  lemma LastMatrix(bs: Bits, c: Cur, m: nat)
    requires Holds(bs, c, [U(8, m)])
    ensures Read(bs, c, 8).1 == m
  {
    hide Holds, Read, Past;
    assert [U(8, m)] == [U(8, m)] + [];
    var d := TakeOneU(bs, c, 8, m, []);
  }

  // ---- the edit

  // What an edit of the eight bits at q does when they hold `was`: 0 when that is m, -1
  // exactly when the body would not keep its escaped length, and otherwise 1, with m
  // in these bits and all bits around them as before.
  predicate SetsMatrixAt(nal: Bytes, h265: bool, q: nat, was: nat, m: nat)
    requires BodyStart(nal, h265) <= |nal| && m < 256
  {
    var rbsp := Rbsp(nal, h265);
    var bs := BitsOf(rbsp);
    var (r, nal') := Edit(nal, h265, Matrix(m));
    && q + 8 <= |bs|
    && (r == 0 <==> was == m)
    && (r == -1 <==> was != m && |Escape(SetByteFrom(rbsp, q, m, 0))| != |nal| - BodyStart(nal, h265))
    && (r == 1 ==>
          BodyStart(nal', h265) <= |nal'|
          && BitsOf(Rbsp(nal', h265)) == bs[..q] + UBits(8, m) + bs[q + 8..])
  }

  lemma EditMatrix(nal: Bytes, h265: bool, p: nat, q: nat, m: nat)
    requires Editable(nal, h265) && BodyStart(nal, h265) <= |nal| && m < 256
    requires FullRangeWalk(BitsOf(Rbsp(nal, h265)), h265) == Found(p) && p < |BitsOf(Rbsp(nal, h265))|
    requires MatrixWalk(BitsOf(Rbsp(nal, h265)), p) == Found(q) && q + 8 <= |BitsOf(Rbsp(nal, h265))|
    ensures var (rbsp, r) := (Rbsp(nal, h265), Edit(nal, h265, Matrix(m)).0);
            var was := Read(BitsOf(rbsp), Cur(q, false), 8).1;
            && (r == 0 <==> was == m)
            && (r == -1 <==> was != m && |Escape(SetByteFrom(rbsp, q, m, 0))| != |nal| - BodyStart(nal, h265))
  {
    hide FullRangeWalk, MatrixWalk, BitsOf, SetByteFrom, Read, Escape, Unescape, BodyStart, Editable;
  }

  lemma NoMatrix(nal: Bytes, h265: bool, p: nat, m: nat)
    requires Editable(nal, h265) && BodyStart(nal, h265) <= |nal| && m < 256
    requires FullRangeWalk(BitsOf(Rbsp(nal, h265)), h265) == Absent
             || (FullRangeWalk(BitsOf(Rbsp(nal, h265)), h265) == Found(p) && p < |BitsOf(Rbsp(nal, h265))|
                 && MatrixWalk(BitsOf(Rbsp(nal, h265)), p) == Absent)
    ensures Edit(nal, h265, Matrix(m)).0 == 0
  {
    hide FullRangeWalk, MatrixWalk, BitsOf, SetByteFrom, Read, Escape, Unescape, BodyStart, Editable;
  }

  lemma WrittenIs(a: Bits, b: Bits, q: nat, m: nat)
    requires m < 256 && ByteWritten(a, b, q, m, 0)
    ensures b == a[..q] + UBits(8, m) + a[q + 8..]
  {
    hide UBits, ByteBit;
    ByteIsUBits(m);
    var u := UBits(8, m);
    assert forall j | 0 <= j < 8 :: b[q + j] == u[j];
    assert b[q..q + 8] == u;
    assert b == b[..q] + b[q..q + 8] + b[q + 8..];
  }

  lemma FoundMatrix(nal: Bytes, nal': Bytes, h265: bool, p: nat, q: nat, m: nat)
    requires BodyStart(nal, h265) <= |nal| && BodyStart(nal', h265) <= |nal'| && m < 256
    requires OnlyTarget(BitsOf(Rbsp(nal, h265)), BitsOf(Rbsp(nal', h265)), h265, Matrix(m))
    requires FullRangeWalk(BitsOf(Rbsp(nal, h265)), h265) == Found(p)
    requires MatrixWalk(BitsOf(Rbsp(nal, h265)), p) == Found(q)
    ensures ByteWritten(BitsOf(Rbsp(nal, h265)), BitsOf(Rbsp(nal', h265)), q, m, 0)
  {
    hide FullRangeWalk, MatrixWalk, ByteWritten, BitsOf, Rbsp, BodyStart;
  }

  lemma SetsMatrix(nal: Bytes, h265: bool, p: nat, q: nat, m: nat)
    requires Editable(nal, h265) && BodyStart(nal, h265) <= |nal| && m < 256
    requires FullRangeWalk(BitsOf(Rbsp(nal, h265)), h265) == Found(p) && p < |BitsOf(Rbsp(nal, h265))|
    requires MatrixWalk(BitsOf(Rbsp(nal, h265)), p) == Found(q) && q + 8 <= |BitsOf(Rbsp(nal, h265))|
    ensures SetsMatrixAt(nal, h265, q, Read(BitsOf(Rbsp(nal, h265)), Cur(q, false), 8).1, m)
  {
    hide FullRangeWalk, MatrixWalk, BitsOf, Edit, Rbsp, BodyStart, OnlyTarget, Editable, Read, SetByteFrom, UBits;
    EditMatrix(nal, h265, p, q, m);
    if Edit(nal, h265, Matrix(m)).0 == 1 {
      var nal' := Edit(nal, h265, Matrix(m)).1;
      EditIsExact(nal, h265, Matrix(m));
      FoundMatrix(nal, nal', h265, p, q, m);
      WrittenIs(BitsOf(Rbsp(nal, h265)), BitsOf(Rbsp(nal', h265)), q, m);
    }
  }

  // ---- over a conforming parameter set

  // The body ends with the fields fs of the signal's block, from the flag at p on.
  lemma EditInBlock(nal: Bytes, h265: bool, p: nat, g: Signal, m: nat)
    requires Editable(nal, h265) && BodyStart(nal, h265) <= |nal| && m < 256
    requires FullRangeWalk(BitsOf(Rbsp(nal, h265)), h265) == Found(p)
    requires Holds(BitsOf(Rbsp(nal, h265)), Cur(p, false), ColourFields(g))
    ensures if g.colour.Some? then
              p + |Encode(ColourFields(g))| >= 8
              && SetsMatrixAt(nal, h265, p + |Encode(ColourFields(g))| - 8, g.colour.value.matrix, m)
            else Edit(nal, h265, Matrix(m)).0 == 0
  {
    hide *;
    var bs, c := BitsOf(Rbsp(nal, h265)), Cur(p, false);
    MatrixWalkIsExact(bs, c, g);
    InBody(bs, c, g);
    if g.colour.Some? {
      SetsMatrix(nal, h265, p, p + |Encode(ColourFields(g))| - 8, m);
    } else {
      NoMatrix(nal, h265, p, m);
    }
  }

  lemma InBody(bs: Bits, c: Cur, g: Signal)
    requires Holds(bs, c, ColourFields(g))
    ensures c.bit < |bs| && Past(c, ColourFields(g)).bit == c.bit + |Encode(ColourFields(g))| <= |bs|
  {
    var tail := ColourFields(g)[1..];
    hide Encode;
    assert ColourFields(g) == [Flag(g.fullRange)] + tail;
    EncodeConcat([Flag(g.fullRange)], tail);
    OneFlag(g.fullRange);
  }

  lemma OneFlag(b: bool)
    ensures |Encode([Flag(b)])| == 1
  {
    assert [Flag(b)][1..] == [];
    assert Encode([Flag(b)]) == FieldBits(Flag(b)) + Encode([]);
  }

  // The bits of a tree with another matrix_coefficients
  lemma MatrixLast(fs: seq<Field>, v: Option<Vui>, m: nat)
    requires HasColour(v) && m < 256
    ensures HasColour(WithMatrix(v, m))
    ensures var bits := Encode(fs + SignalFields(v));
            |bits| >= 8 && Encode(fs + SignalFields(WithMatrix(v, m))) == bits[..|bits| - 8] + UBits(8, m)
  {
    var g, x := v.value.signal.value, v.value.signal.value.colour.value;
    var most := [Flag(g.fullRange)] + ([Flag(true)] + ([U(8, x.primaries)] + [U(8, x.transfer)]));
    assert SignalFields(v) == most + [U(8, x.matrix)];
    assert SignalFields(WithMatrix(v, m)) == most + [U(8, m)];
    assert fs + SignalFields(v) == (fs + most) + [U(8, x.matrix)];
    assert fs + SignalFields(WithMatrix(v, m)) == (fs + most) + [U(8, m)];
    LastByte(fs + most, x.matrix);
    LastByte(fs + most, m);
  }

  lemma LastByte(fs: seq<Field>, m: nat)
    ensures Encode(fs + [U(8, m)]) == Encode(fs) + UBits(8, m)
  {
    EncodeConcat(fs, [U(8, m)]);
    assert [U(8, m)][1..] == [];
    assert Encode([U(8, m)]) == UBits(8, m) + Encode([]);
  }

  // The block behind the fields fs of a parameter set
  lemma BlockHolds(bs: Bits, fs: seq<Field>, g: Signal)
    requires AllOk(fs + ColourFields(g)) && At(bs, 0, Encode(fs + ColourFields(g)))
    ensures At(bs, 0, Encode(fs)) && Holds(bs, Cur(|Encode(fs)|, false), ColourFields(g))
    ensures |Encode(fs + ColourFields(g))| == |Encode(fs)| + |Encode(ColourFields(g))|
  {
    hide Encode, ColourFields, AllOk, At;
    EncodeConcat(fs, ColourFields(g));
    AtSplit(bs, 0, Encode(fs), Encode(ColourFields(g)));
    AllOkConcat(fs, ColourFields(g));
  }

  lemma SignalIs(v: Option<Vui>)
    ensures if v.Some? && v.value.signal.Some? then SignalFields(v) == ColourFields(v.value.signal.value)
            else SignalFields(v) == []
    ensures HasColour(v) ==> MatrixIn(v) == v.value.signal.value.colour.value.matrix
    ensures !HasColour(v) && v.Some? && v.value.signal.Some? ==> v.value.signal.value.colour == None
    ensures HasColour(v) ==> v.Some? && v.value.signal.Some? && v.value.signal.value.colour.Some?
  {
  }

  lemma Editing(nal: Bytes, h265: bool, fs: seq<Field>, v: Option<Vui>, m: nat)
    requires Editable(nal, h265) && BodyStart(nal, h265) <= |nal| && m < 256
    requires AllOk(fs + SignalFields(v)) && At(BitsOf(Rbsp(nal, h265)), 0, Encode(fs + SignalFields(v)))
    requires FullRangeWalk(BitsOf(Rbsp(nal, h265)), h265)
          == if v.Some? && v.value.signal.Some? then Found(|Encode(fs)|) else Absent
    ensures if HasColour(v) then
              |Encode(fs + SignalFields(v))| >= 8
              && SetsMatrixAt(nal, h265, |Encode(fs + SignalFields(v))| - 8, MatrixIn(v), m)
            else Edit(nal, h265, Matrix(m)).0 == 0
  {
    hide *;
    SignalIs(v);
    if v.Some? && v.value.signal.Some? {
      BlockHolds(BitsOf(Rbsp(nal, h265)), fs, v.value.signal.value);
      EditInBlock(nal, h265, |Encode(fs)|, v.value.signal.value, m);
    } else {
      NoMatrix(nal, h265, 0, m);
    }
  }

  // After an edit that answers 1 the body is the tree with m, and what followed it.
  predicate HoldsInstead(nal: Bytes, h265: bool, was: Bits, now: Bits, m: nat)
    requires BodyStart(nal, h265) <= |nal| && m < 256
  {
    var nal' := Edit(nal, h265, Matrix(m)).1;
    && |was| <= |BitsOf(Rbsp(nal, h265))| && BodyStart(nal', h265) <= |nal'|
    && BitsOf(Rbsp(nal', h265)) == now + BitsOf(Rbsp(nal, h265))[|was|..]
  }

  lemma Instead(nal: Bytes, h265: bool, fs: seq<Field>, v: Option<Vui>, m: nat)
    requires BodyStart(nal, h265) <= |nal| && m < 256 && HasColour(v) && Edit(nal, h265, Matrix(m)).0 == 1
    requires At(BitsOf(Rbsp(nal, h265)), 0, Encode(fs + SignalFields(v)))
    requires |Encode(fs + SignalFields(v))| >= 8
             && SetsMatrixAt(nal, h265, |Encode(fs + SignalFields(v))| - 8, MatrixIn(v), m)
    ensures HoldsInstead(nal, h265, Encode(fs + SignalFields(v)), Encode(fs + SignalFields(WithMatrix(v, m))), m)
  {
    hide Edit, Rbsp, BodyStart, BitsOf, Encode, SignalFields, HasColour, MatrixIn, WithMatrix, SetByteFrom, UBits,
      Escape;
    MatrixLast(fs, v, m);
    var was, q := Encode(fs + SignalFields(v)), |Encode(fs + SignalFields(v))| - 8;
    var bs := BitsOf(Rbsp(nal, h265));
    assert bs[..q] == was[..q] by {
      assert bs[0..|was|] == was;
    }
  }

  /** Over the bits of a conforming H.264 parameter set, rewriting the matrix touches
      matrix_coefficients itself: the call answers 0 if there is no colour description
      or the field holds the value, -1 exactly when the body would not keep its escaped
      length, and otherwise 1, with a body that is the same parameter set with the
      value in that field, and all bits behind it as before. */
  lemma EditSetsTheMatrix(nal: Bytes, s: Sps, m: nat)
    requires SpsOk(s) && AllOk(SpsFields(s) + SignalFields(s.vui)) && Editable(nal, false) && m < 256
    requires At(BitsOf(Rbsp(nal, false)), 0, SpsBits(s))
    ensures if HasColour(s.vui) then
              |SpsBits(s)| >= 8 && SetsMatrixAt(nal, false, |SpsBits(s)| - 8, MatrixIn(s.vui), m)
            else Edit(nal, false, Matrix(m)).0 == 0
    ensures HasColour(s.vui) && Edit(nal, false, Matrix(m)).0 == 1 ==>
              HoldsInstead(nal, false, SpsBits(s), SpsBits(s.(vui := WithMatrix(s.vui, m))), m)
  {
    hide *;
    EditableStart(nal, false);
    var fs := SpsFields(s);
    SpsBitsAre(BitsOf(Rbsp(nal, false)), s);
    WalkIsExact(BitsOf(Rbsp(nal, false)), s);
    WalkOf(BitsOf(Rbsp(nal, false)));
    Editing(nal, false, fs, s.vui, m);
    if HasColour(s.vui) {
      SpsWithMatrix(s, m);
      if Edit(nal, false, Matrix(m)).0 == 1 {
        Instead(nal, false, fs, s.vui, m);
      }
    }
  }

  lemma FrontHolds(bs: Bits, fs: seq<Field>, gs: seq<Field>)
    requires At(bs, 0, Encode(fs + gs))
    ensures At(bs, 0, Encode(fs))
  {
    hide Encode, At;
    EncodeConcat(fs, gs);
    AtSplit(bs, 0, Encode(fs), Encode(gs));
  }

  lemma SpsBitsAre(bs: Bits, s: Sps)
    requires At(bs, 0, SpsBits(s))
    ensures SpsBits(s) == Encode(SpsFields(s) + SignalFields(s.vui)) && BitsBeforeFlag(s) == Encode(SpsFields(s))
    ensures At(bs, 0, BitsBeforeFlag(s))
    ensures HasFlag(s) <==> s.vui.Some? && s.vui.value.signal.Some?
  {
    hide SpsFields, SignalFields, Encode, At;
    FrontHolds(bs, SpsFields(s), SignalFields(s.vui));
  }

  lemma SpsWithMatrix(s: Sps, m: nat)
    requires HasColour(s.vui)
    ensures var t := s.(vui := WithMatrix(s.vui, m));
            SpsBits(t) == Encode(SpsFields(s) + SignalFields(WithMatrix(s.vui, m)))
  {
    hide HighFields, PocFields, FrameFields, WithChroma, VuiFields, SignalFields, Encode, HasColour, WithMatrix;
    SameVui(s.vui, m);
  }

  /** The same over an H.265 parameter set with steady reference picture sets. */
  lemma EditSetsTheHevcMatrix(nal: Bytes, s: Hevc, m: nat)
    requires HevcOk(s) && AllOk(HevcFields(s) + SignalFields(s.vui)) && Steady(s.sets)
    requires Editable(nal, true) && m < 256
    requires At(BitsOf(Rbsp(nal, true)), 0, HevcSpsBits(s))
    ensures if HasColour(s.vui) then
              |HevcSpsBits(s)| >= 8 && SetsMatrixAt(nal, true, |HevcSpsBits(s)| - 8, MatrixIn(s.vui), m)
            else Edit(nal, true, Matrix(m)).0 == 0
    ensures HasColour(s.vui) && Edit(nal, true, Matrix(m)).0 == 1 ==>
              HoldsInstead(nal, true, HevcSpsBits(s), HevcSpsBits(s.(vui := WithMatrix(s.vui, m))), m)
  {
    hide *;
    EditableStart(nal, true);
    var fs := HevcFields(s);
    HevcBitsAre(BitsOf(Rbsp(nal, true)), s);
    HevcWalkIsExact(BitsOf(Rbsp(nal, true)), s);
    WalkOf(BitsOf(Rbsp(nal, true)));
    Editing(nal, true, fs, s.vui, m);
    if HasColour(s.vui) {
      HevcWithMatrix(s, m);
      if Edit(nal, true, Matrix(m)).0 == 1 {
        Instead(nal, true, fs, s.vui, m);
      }
    }
  }

  lemma HevcBitsAre(bs: Bits, s: Hevc)
    requires At(bs, 0, HevcSpsBits(s))
    ensures HevcSpsBits(s) == Encode(HevcFields(s) + SignalFields(s.vui)) && HevcBits(s) == Encode(HevcFields(s))
    ensures At(bs, 0, HevcBits(s))
    ensures HevcHasFlag(s) <==> s.vui.Some? && s.vui.value.signal.Some?
  {
    hide HevcFields, SignalFields, Encode, At;
    FrontHolds(bs, HevcFields(s), SignalFields(s.vui));
  }

  lemma SameTop(s: Hevc, v: Option<Vui>)
    ensures TopFields(s.(vui := v)) == TopFields(s)
  {
    hide LayersFields;
  }

  lemma SameOrder(s: Hevc, v: Option<Vui>)
    ensures OrderFields(s.(vui := v)) == OrderFields(s)
  {
    hide SizeFields, UeFields, CodingFields;
  }

  lemma SameRefs(s: Hevc, v: Option<Vui>)
    ensures RefFields(s.(vui := v)) == RefFields(s)
  {
    hide SetsFields, LongFields;
  }

  lemma SameVui(v: Option<Vui>, m: nat)
    requires HasColour(v)
    ensures VuiFields(WithMatrix(v, m)) == VuiFields(v)
  {
    hide AspectFields, OverscanFields;
  }

  lemma HevcWithMatrix(s: Hevc, m: nat)
    requires HasColour(s.vui)
    ensures var t := s.(vui := WithMatrix(s.vui, m));
            HevcSpsBits(t) == Encode(HevcFields(s) + SignalFields(WithMatrix(s.vui, m)))
  {
    hide TopFields, OrderFields, RefFields, VuiFields, SignalFields, Encode, HasColour, WithMatrix;
    var v := WithMatrix(s.vui, m);
    SameTop(s, v);
    SameOrder(s, v);
    SameRefs(s, v);
    SameVui(s.vui, m);
  }
}
