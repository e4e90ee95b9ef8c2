/** The in-place SPS edit: unescape, walk, change the flag or the matrix byte,
    escape again, and commit only if the length is unchanged.

    `Edit` gives the answer and the new contents of the buffer. That an edit which
    answers 1 has the same length rests on the guard before the copy; that its body
    differs in one place only rests on unescape undoing escape; and that the next
    call answers 0 rests on the walk reading nothing behind the place it found. The
    methods at the end do the same in place, with two scratch buffers. */
module VuiEdit {
  import opened Basics
  import opened VuiEscape
  import opened VuiBits
  import opened VuiWalk
  import opened VuiPrefix
  import opened VuiSyntax
  import opened VuiExact
  import opened VuiHevc
  import opened VuiHevcExact
  import opened VuiWalkers

  const RBSP_MAX: nat := 1024

  // What is edited: the full-range flag is set, or matrix_coefficients given a value
  datatype Target = FullRange | Matrix(value: nat)

  // ---- changing bits of a byte buffer

  function WithBit(b: bv8, k: nat, v: bool): bv8
    requires k < 8
  {
    if v then b | Mask(k) else b & !Mask(k)
  }

  function SetBit(s: Bytes, k: nat, v: bool): Bytes
    requires k < 8 * |s|
  {
    s[k / 8 := WithBit(s[k / 8], k % 8, v)]
  }

  // Bits i to 7 of the byte at bit k
  function SetByteFrom(s: Bytes, k: nat, m: nat, i: nat): (r: Bytes)
    requires k + 8 <= 8 * |s| && i <= 8
    ensures |r| == |s|
    decreases 8 - i
  {
    if i == 8 then s else SetByteFrom(SetBit(s, k + i, ByteBit(m, i)), k, m, i + 1)
  }

  function Weight(i: nat): nat {
    match i
    case 0 => 128 case 1 => 64 case 2 => 32 case 3 => 16
    case 4 => 8 case 5 => 4 case 6 => 2 case _ => 1
  }

  predicate ByteBit(m: nat, i: nat) {
    m / Weight(i) % 2 == 1
  }

  lemma WithBitIs(b: bv8, k: nat, v: bool, j: nat)
    requires k < 8 && j < 8
    ensures Has(WithBit(b, k, v), j) <==> if j == k then v else Has(b, j)
  {
    hide Mask;
    MaskAlone(k, j);
    if v {
      OrBit(b, Mask(k), Mask(j));
    } else {
      AndBit(b, Mask(k), Mask(j));
    }
  }

  lemma MaskAlone(k: nat, j: nat)
    requires k < 8 && j < 8
    ensures j == k ==> Mask(k) & Mask(j) == Mask(j) && Mask(j) != 0
    ensures j != k ==> Mask(k) & Mask(j) == 0
  {
  }

  lemma OrBit(b: bv8, x: bv8, y: bv8)
    ensures (b | x) & y == (b & y) | (x & y)
  {
  }

  lemma AndBit(b: bv8, x: bv8, y: bv8)
    ensures x & y == 0 ==> (b & !x) & y == b & y
    ensures x & y == y ==> (b & !x) & y == 0
  {
  }

  lemma SetBitOne(s: Bytes, k: nat, v: bool, j: nat)
    requires k < 8 * |s| && j < 8 * |s|
    ensures BitAt(SetBit(s, k, v), j) <==> if j == k then v else BitAt(s, j)
  {
    SamePlace(j, k);
    hide WithBit, Has;
    if j / 8 == k / 8 {
      WithBitIs(s[k / 8], k % 8, v, j % 8);
    }
  }

  lemma SamePlace(j: nat, k: nat)
    ensures j == k <==> j / 8 == k / 8 && j % 8 == k % 8
  {
  }

  lemma SetBitBits(s: Bytes, k: nat, v: bool)
    requires k < 8 * |s|
    ensures BitsOf(SetBit(s, k, v)) == BitsOf(s)[k := v]
  {
    var t := SetBit(s, k, v);
    assert |t| == |s|;
    hide SetBit, BitAt;
    forall j | 0 <= j < 8 * |s|
      ensures BitsOf(t)[j] == BitsOf(s)[k := v][j]
    {
      SetBitOne(s, k, v, j);
    }
  }

  // The first bits of m written, the rest as it was
  predicate ByteWritten(a: Bits, b: Bits, k: nat, m: nat, from: nat) {
    && |a| == |b| && k + 8 <= |a|
    && (forall j | 0 <= j < |a| && !(k + from <= j < k + 8) :: b[j] == a[j])
    && (forall j | from <= j < 8 :: b[k + j] == ByteBit(m, j))
  }

  lemma {:induction false} SetByteBits(s: Bytes, k: nat, m: nat, i: nat)
    requires k + 8 <= 8 * |s| && i <= 8
    ensures ByteWritten(BitsOf(s), BitsOf(SetByteFrom(s, k, m, i)), k, m, i)
    decreases 8 - i
  {
    hide BitsOf, ByteBit, SetBit;
    if i < 8 {
      var t := SetBit(s, k + i, ByteBit(m, i));
      SetBitBits(s, k + i, ByteBit(m, i));
      SetByteBits(t, k, m, i + 1);
    }
  }

  function Low(v: nat, h: nat): nat {
    if v >= h then v - h else v
  }

  lemma ByteIsUBits(m: nat)
    requires m < 256
    ensures forall i | 0 <= i < 8 :: UBits(8, m)[i] == ByteBit(m, i)
  {
    hide *;
    TopBits(m);
    LowBits(m);
  }

  lemma TopBits(m: nat)
    ensures var v1 := Low(m, 128);
            var v2 := Low(v1, 64);
            var v3 := Low(v2, 32);
            var v4 := Low(v3, 16);
            var v5 := Low(v4, 8);
            var v6 := Low(v5, 4);
            var v7 := Low(v6, 2);
            var u := UBits(8, m);
            && (u[0] <==> m >= 128) && (u[1] <==> v1 >= 64) && (u[2] <==> v2 >= 32) && (u[3] <==> v3 >= 16)
            && (u[4] <==> v4 >= 8) && (u[5] <==> v5 >= 4) && (u[6] <==> v6 >= 2) && (u[7] <==> v7 >= 1)
  {
    hide UBits, Low;
    var v1 := Low(m, 128);
    var v2 := Low(v1, 64);
    var v3 := Low(v2, 32);
    var v4 := Low(v3, 16);
    var v5 := Low(v4, 8);
    var v6 := Low(v5, 4);
    TopBit(8, m, 128);
    TopBit(7, v1, 64);
    TopBit(6, v2, 32);
    TopBit(5, v3, 16);
    TopBit(4, v4, 8);
    TopBit(3, v5, 4);
    TopBit(2, v6, 2);
    TopBit(1, Low(v6, 2), 1);
  }

  lemma LowBits(m: nat)
    requires m < 256
    ensures var v1 := Low(m, 128);
            var v2 := Low(v1, 64);
            var v3 := Low(v2, 32);
            var v4 := Low(v3, 16);
            var v5 := Low(v4, 8);
            var v6 := Low(v5, 4);
            var v7 := Low(v6, 2);
            && (m >= 128 <==> ByteBit(m, 0)) && (v1 >= 64 <==> ByteBit(m, 1))
            && (v2 >= 32 <==> ByteBit(m, 2)) && (v3 >= 16 <==> ByteBit(m, 3))
            && (v4 >= 8 <==> ByteBit(m, 4)) && (v5 >= 4 <==> ByteBit(m, 5))
            && (v6 >= 2 <==> ByteBit(m, 6)) && (v7 >= 1 <==> ByteBit(m, 7))
  {
    LowBit(m, 0, 128, m);
    LowBit(m, 1, 64, Low(m, 128));
    var v2 := Low(Low(m, 128), 64);
    LowBit(m, 2, 32, v2);
    LowBit(m, 3, 16, Low(v2, 32));
    var v4 := Low(Low(v2, 32), 16);
    LowBit(m, 4, 8, v4);
    LowBit(m, 5, 4, Low(v4, 8));
    var v6 := Low(Low(v4, 8), 4);
    LowBit(m, 6, 2, v6);
    LowBit(m, 7, 1, Low(v6, 2));
  }

  lemma LowParts(m: nat, h: nat, q: nat, v: nat, b: nat)
    requires h > 0 && q == m / (2 * h) && v == m % (2 * h) && b == if v >= h then 1 else 0
    ensures m == (2 * q + b) * h + Low(v, h)
  {
    assert m == q * (2 * h) + v;
    assert q * (2 * h) == 2 * q * h;
    assert (2 * q + b) * h == 2 * q * h + b * h;
  }

  // What is left of m below bit i decides that bit.
  lemma LowBit(m: nat, i: nat, h: nat, v: nat)
    requires i < 8 && h == Weight(i) && v == m % (2 * h)
    ensures v >= h <==> ByteBit(m, i)
    ensures Low(v, h) == m % h
  {
    var q := m / (2 * h);
    var b := if v >= h then 1 else 0;
    LowParts(m, h, q, v, b);
    DivIs(m, h, 2 * q + b, Low(v, h));
    hide Low, Weight;
  }

  lemma DivIs(m: nat, h: nat, k: nat, r: nat)
    requires r < h && m == k * h + r
    ensures m / h == k && m % h == r
  {
    var d := m / h - k;
    assert m == m / h * h + m % h;
    assert d * h == r - m % h;
  }

  lemma TopBit(n: nat, v: nat, h: nat)
    requires 0 < n <= 8 && h == Weight(8 - n)
    ensures UBits(n, v)[0] <==> v >= h
    ensures UBits(n, v)[1..] == UBits(n - 1, Low(v, h))
  {
    assert Pow2(0) == 1 && Pow2(1) == 2 && Pow2(2) == 4 && Pow2(3) == 8;
    assert Pow2(4) == 16 && Pow2(5) == 32 && Pow2(6) == 64 && Pow2(7) == 128;
  }

  // ---- the edit of the unescaped body

  datatype Outcome = Fail | Same | Changed(rbsp: Bytes)

  function EditAt(rbsp: Bytes, flag: nat, target: Target): Outcome
    requires target.Matrix? ==> target.value < 256
  {
    var bs := BitsOf(rbsp);
    if flag >= 8 * |rbsp| then Fail
    else
      match target
      case FullRange => if bs[flag] then Same else Changed(SetBit(rbsp, flag, true))
      case Matrix(m) =>
        match MatrixWalk(bs, flag)
        case Absent => Same
        case Bad => Fail
        case Found(mb) =>
          if mb + 8 > 8 * |rbsp| then Fail
          else if Read(bs, Cur(mb, false), 8).1 == m then Same
          else Changed(SetByteFrom(rbsp, mb, m, 0))
  }

  function EditRbsp(rbsp: Bytes, h265: bool, target: Target): Outcome
    requires target.Matrix? ==> target.value < 256
  {
    match FullRangeWalk(BitsOf(rbsp), h265)
    case Absent => Same
    case Bad => Fail
    case Found(flag) => EditAt(rbsp, flag, target)
  }

  // ---- the edit of the NAL unit

  // Bytes of an Annex B start code left in front
  function StartCode(nal: Bytes): nat {
    if |nal| > 4 && nal[0] == 0 && nal[1] == 0 then
      if nal[2] == 1 then 3 else if nal[2] == 0 && nal[3] == 1 then 4 else 0
    else 0
  }

  // Where the unescaped part begins
  function BodyStart(nal: Bytes, h265: bool): nat {
    StartCode(nal) + (if h265 then 2 else 1)
  }

  predicate IsSps(nal: Bytes, h265: bool)
    requires |nal| >= 4
  {
    var b := nal[StartCode(nal)];
    if h265 then (b >> 1) & 0x3f == 33 else b & 0x1f == 7
  }

  predicate Editable(nal: Bytes, h265: bool) {
    |nal| >= 4 && BodyStart(nal, h265) < |nal| <= BodyStart(nal, h265) + RBSP_MAX && IsSps(nal, h265)
  }

  // vui_edit: its return value and the buffer it leaves
  function Edit(nal: Bytes, h265: bool, target: Target): (int, Bytes)
    requires target.Matrix? ==> target.value < 256
  {
    if !Editable(nal, h265) then (-1, nal)
    else
      var start := BodyStart(nal, h265);
      match EditRbsp(Unescape(nal[start..]), h265, target)
      case Fail => (-1, nal)
      case Same => (0, nal)
      case Changed(rbsp) =>
        if |Escape(rbsp)| != |nal| - start then (-1, nal) else (1, nal[..start] + Escape(rbsp))
  }

  function Rbsp(nal: Bytes, h265: bool): Bytes
    requires BodyStart(nal, h265) <= |nal|
  {
    Unescape(nal[BodyStart(nal, h265)..])
  }

  // ---- an edit changes what it names and nothing else

  // The bits of b are those of a with the target's bits, after the walk, changed
  predicate OnlyTarget(a: Bits, b: Bits, h265: bool, target: Target) {
    FullRangeWalk(a, h265).Found? &&
    var flag := FullRangeWalk(a, h265).bit;
    match target
    case FullRange => flag < |a| && !a[flag] && b == a[flag := true]
    case Matrix(m) => MatrixWalk(a, flag).Found? && ByteWritten(a, b, MatrixWalk(a, flag).bit, m, 0)
  }

  lemma ChangedBits(rbsp: Bytes, h265: bool, target: Target)
    requires target.Matrix? ==> target.value < 256
    requires EditRbsp(rbsp, h265, target).Changed?
    ensures OnlyTarget(BitsOf(rbsp), BitsOf(EditRbsp(rbsp, h265, target).rbsp), h265, target)
  {
    hide FullRangeWalk, MatrixWalk, BitsOf, Read, SetBit, ByteWritten, SetByteFrom;
    var flag := FullRangeWalk(BitsOf(rbsp), h265).bit;
    match target
    case FullRange => SetBitBits(rbsp, flag, true);
    case Matrix(m) => SetByteBits(rbsp, MatrixWalk(BitsOf(rbsp), flag).bit, m, 0);
  }

  // The header, the length and the start code survive an edit.
  lemma EditFrame(nal: Bytes, h265: bool, target: Target)
    requires target.Matrix? ==> target.value < 256
    requires Edit(nal, h265, target).0 == 1
    ensures var nal' := Edit(nal, h265, target).1;
            && |nal'| == |nal| && nal'[..BodyStart(nal, h265)] == nal[..BodyStart(nal, h265)]
            && Editable(nal', h265) && BodyStart(nal', h265) == BodyStart(nal, h265)
            && EditRbsp(Rbsp(nal, h265), h265, target).Changed?
            && Rbsp(nal', h265) == EditRbsp(Rbsp(nal, h265), h265, target).rbsp
  {
    hide EditRbsp, Escape, Unescape;
    var start := BodyStart(nal, h265);
    var rbsp := EditRbsp(Unescape(nal[start..]), h265, target).rbsp;
    var nal' := Edit(nal, h265, target).1;
    assert nal' == nal[..start] + Escape(rbsp);
    SameHeader(nal, nal', h265);
    UnescapeEscape(rbsp);
    assert nal'[start..] == Escape(rbsp);
  }

  lemma SameHeader(a: Bytes, b: Bytes, h265: bool)
    requires |a| == |b| >= 4 && BodyStart(a, h265) < |a|
    requires b[..BodyStart(a, h265)] == a[..BodyStart(a, h265)]
    requires IsSps(a, h265)
    ensures BodyStart(b, h265) == BodyStart(a, h265) && IsSps(b, h265)
  {
    var start := BodyStart(a, h265);
    assert forall i | 0 <= i < start :: b[i] == b[..start][i] == a[..start][i] == a[i];
  }

  /** When an edit returns 1, the NAL unit keeps its length and its header, and
      its unescaped body differs from the old one only in the flag bit, or only
      in the eight bits of matrix_coefficients, which hold the value asked for. */
  lemma EditIsExact(nal: Bytes, h265: bool, target: Target)
    requires target.Matrix? ==> target.value < 256
    requires Edit(nal, h265, target).0 == 1
    ensures var nal' := Edit(nal, h265, target).1;
            && |nal'| == |nal| && nal'[..BodyStart(nal, h265)] == nal[..BodyStart(nal, h265)]
            && BodyStart(nal', h265) == BodyStart(nal, h265) <= |nal|
            && OnlyTarget(BitsOf(Rbsp(nal, h265)), BitsOf(Rbsp(nal', h265)), h265, target)
  {
    hide Edit, EditRbsp, Rbsp, OnlyTarget;
    EditFrame(nal, h265, target);
    ChangedBits(Rbsp(nal, h265), h265, target);
  }

  /** An edit that does not return 1 leaves the buffer untouched. */
  lemma EditOrNothing(nal: Bytes, h265: bool, target: Target)
    requires target.Matrix? ==> target.value < 256
    ensures Edit(nal, h265, target).0 in {-1, 0, 1}
    ensures Edit(nal, h265, target).0 != 1 ==> Edit(nal, h265, target).1 == nal
  {
  }

  // ---- an edit done is an edit not needed

  lemma FlagAgain(a: Bits, b: Bits, h265: bool)
    requires OnlyTarget(a, b, h265, FullRange)
    ensures FullRangeWalk(b, h265) == FullRangeWalk(a, h265) && FullRangeWalk(a, h265).bit < |b| == |a|
    ensures b[FullRangeWalk(a, h265).bit]
  {
    hide FullRangeWalk;
    FullRangeSame(a, b, h265);
  }

  lemma MatrixAgain(a: Bits, b: Bits, h265: bool, m: nat)
    requires m < 256 && OnlyTarget(a, b, h265, Matrix(m))
    ensures FullRangeWalk(b, h265) == FullRangeWalk(a, h265)
    ensures var flag := FullRangeWalk(a, h265).bit;
            && MatrixWalk(b, flag) == MatrixWalk(a, flag)
            && Read(b, Cur(MatrixWalk(a, flag).bit, false), 8).1 == m
  {
    hide FullRangeWalk, MatrixWalk, Read, ByteBit;
    var flag := FullRangeWalk(a, h265).bit;
    var mb := MatrixWalk(a, flag).bit;
    MatrixSame(a, a, flag);
    MatrixSame(a, b, flag);
    FullRangeSame(a, b, h265);
    ByteIsUBits(m);
    assert b[mb..mb + 8] == UBits(8, m);
    assert Pow2(8) == 256;
    ReadsU(b, Cur(mb, false), 8, m);
  }

  lemma SetFlagSame(rbsp: Bytes, h265: bool)
    requires var bs := BitsOf(rbsp);
             FullRangeWalk(bs, h265).Found? && FullRangeWalk(bs, h265).bit < |bs| && bs[FullRangeWalk(bs, h265).bit]
    ensures EditRbsp(rbsp, h265, FullRange) == Same
  {
    hide FullRangeWalk, BitsOf, SetBit;
  }

  lemma SetMatrixSame(rbsp: Bytes, h265: bool, m: nat)
    requires m < 256
    requires var bs := BitsOf(rbsp);
             && FullRangeWalk(bs, h265).Found? && FullRangeWalk(bs, h265).bit < |bs|
             && var w := MatrixWalk(bs, FullRangeWalk(bs, h265).bit);
                w.Found? && w.bit + 8 <= |bs| && Read(bs, Cur(w.bit, false), 8).1 == m
    ensures EditRbsp(rbsp, h265, Matrix(m)) == Same
  {
    hide FullRangeWalk, MatrixWalk, BitsOf, Read, SetByteFrom;
  }

  lemma ChangedShape(rbsp: Bytes, h265: bool, target: Target)
    requires target.Matrix? ==> target.value < 256
    requires EditRbsp(rbsp, h265, target).Changed?
    ensures var bs := BitsOf(rbsp);
            && |EditRbsp(rbsp, h265, target).rbsp| == |rbsp|
            && FullRangeWalk(bs, h265).Found? && FullRangeWalk(bs, h265).bit < |bs|
            && (target.Matrix? ==>
                  var w := MatrixWalk(bs, FullRangeWalk(bs, h265).bit);
                  w.Found? && w.bit + 8 <= |bs|)
  {
    hide FullRangeWalk, MatrixWalk, BitsOf, Read;
  }

  lemma EditAgain(rbsp: Bytes, h265: bool, target: Target)
    requires target.Matrix? ==> target.value < 256
    requires EditRbsp(rbsp, h265, target).Changed?
    ensures EditRbsp(EditRbsp(rbsp, h265, target).rbsp, h265, target) == Same
  {
    hide *;
    var rbsp' := EditRbsp(rbsp, h265, target).rbsp;
    ChangedBits(rbsp, h265, target);
    ChangedShape(rbsp, h265, target);
    match target
    case FullRange =>
      FlagAgain(BitsOf(rbsp), BitsOf(rbsp'), h265);
      SetFlagSame(rbsp', h265);
    case Matrix(m) =>
      MatrixAgain(BitsOf(rbsp), BitsOf(rbsp'), h265, m);
      SetMatrixSame(rbsp', h265, m);
  }

  /** Edits are idempotent: after an edit that returned 1, the same call returns
      0, because the walk reads only bits in front of what was changed. */
  lemma EditIsIdempotent(nal: Bytes, h265: bool, target: Target)
    requires target.Matrix? ==> target.value < 256
    requires Edit(nal, h265, target).0 == 1
    ensures Edit(Edit(nal, h265, target).1, h265, target) == (0, Edit(nal, h265, target).1)
  {
    EditFrame(nal, h265, target);
    EditAgain(Rbsp(nal, h265), h265, target);
    hide EditRbsp, Editable, Escape, Unescape, BodyStart;
  }

  // ---- the edit of a conforming parameter set

  lemma FullRangeEdit(nal: Bytes, h265: bool)
    requires Editable(nal, h265)
    ensures var bs := BitsOf(Rbsp(nal, h265));
            Edit(nal, h265, FullRange).0 == 0 <==>
            match FullRangeWalk(bs, h265) case Absent => true case Bad => false case Found(p) => p < |bs| && bs[p]
  {
    hide FullRangeWalk, BitsOf, SetBit, Escape, Unescape, BodyStart, Editable;
  }

  lemma EditableStart(nal: Bytes, h265: bool)
    requires Editable(nal, h265)
    ensures BodyStart(nal, h265) <= |nal|
  {
  }

  lemma FoundFlag(nal: Bytes, nal': Bytes, h265: bool, p: nat)
    requires BodyStart(nal, h265) <= |nal| && BodyStart(nal', h265) <= |nal'|
    requires OnlyTarget(BitsOf(Rbsp(nal, h265)), BitsOf(Rbsp(nal', h265)), h265, FullRange)
    requires FullRangeWalk(BitsOf(Rbsp(nal, h265)), h265) == Found(p)
    ensures p < |BitsOf(Rbsp(nal, h265))|
    ensures BitsOf(Rbsp(nal', h265)) == BitsOf(Rbsp(nal, h265))[p := true]
  {
    hide FullRangeWalk;
  }

  // The flag is behind the end, or the escaped body does not keep its length with it set.
  predicate CannotSet(nal: Bytes, h265: bool, p: nat)
    requires BodyStart(nal, h265) <= |nal|
  {
    var rbsp := Rbsp(nal, h265);
    p >= 8 * |rbsp| || (!BitsOf(rbsp)[p] && |Escape(SetBit(rbsp, p, true))| != |nal| - BodyStart(nal, h265))
  }

  lemma EditFails(nal: Bytes, h265: bool, p: nat)
    requires Editable(nal, h265) && BodyStart(nal, h265) <= |nal|
    requires FullRangeWalk(BitsOf(Rbsp(nal, h265)), h265) == Found(p)
    ensures Edit(nal, h265, FullRange).0 == -1 <==> CannotSet(nal, h265, p)
  {
    hide FullRangeWalk, BitsOf, SetBit, Escape, Unescape, BodyStart, Editable;
  }

  // What an edit of the flag at p does: 0 when it is set, -1 exactly when it cannot be
  // set, and otherwise 1, with the flag set and all bits around it as before.
  predicate SetsFlagAt(nal: Bytes, h265: bool, p: nat)
    requires BodyStart(nal, h265) <= |nal|
  {
    var bs := BitsOf(Rbsp(nal, h265));
    var (r, nal') := Edit(nal, h265, FullRange);
    && (r == 0 <==> p < |bs| && bs[p])
    && (r == -1 <==> CannotSet(nal, h265, p))
    && (r == 1 ==>
          p < |bs| && BodyStart(nal', h265) <= |nal'| && BitsOf(Rbsp(nal', h265)) == bs[p := true])
  }

  lemma SetsFlag(nal: Bytes, h265: bool, p: nat)
    requires Editable(nal, h265) && BodyStart(nal, h265) <= |nal|
    requires FullRangeWalk(BitsOf(Rbsp(nal, h265)), h265) == Found(p)
    ensures SetsFlagAt(nal, h265, p)
  {
    FullRangeEdit(nal, h265);
    EditFails(nal, h265, p);
    if Edit(nal, h265, FullRange).0 == 1 {
      EditIsExact(nal, h265, FullRange);
      FoundFlag(nal, Edit(nal, h265, FullRange).1, h265, p);
    }
    hide FullRangeWalk, BitsOf, Edit, Rbsp, BodyStart, CannotSet, OnlyTarget, Editable;
  }

  lemma NoFlag(nal: Bytes, h265: bool)
    requires Editable(nal, h265) && BodyStart(nal, h265) <= |nal|
    requires FullRangeWalk(BitsOf(Rbsp(nal, h265)), h265) == Absent
    ensures Edit(nal, h265, FullRange).0 == 0
  {
    FullRangeEdit(nal, h265);
    hide FullRangeWalk, BitsOf, Edit, Rbsp, BodyStart, Editable;
  }

  /** Over the bits of a conforming H.264 parameter set, setting the full range flag
      touches video_full_range_flag itself: the call answers 0 if there is no
      flag or it is set, -1 exactly when the body ends before the flag or would not
      keep its escaped length, and otherwise 1, with a body that is the same
      parameter set with the flag set and all bits around it as before. */
  lemma EditSetsTheFlag(nal: Bytes, s: Sps)
    requires SpsOk(s) && Editable(nal, false)
    requires At(BitsOf(Rbsp(nal, false)), 0, BitsBeforeFlag(s))
    ensures if HasFlag(s) then SetsFlagAt(nal, false, |BitsBeforeFlag(s)|) else Edit(nal, false, FullRange).0 == 0
  {
    hide *;
    EditableStart(nal, false);
    WalkIsExact(BitsOf(Rbsp(nal, false)), s);
    WalkOf(BitsOf(Rbsp(nal, false)));
    if HasFlag(s) {
      SetsFlag(nal, false, |BitsBeforeFlag(s)|);
    } else {
      NoFlag(nal, false);
    }
  }

  /** The same over an H.265 parameter set with steady reference picture sets. */
  lemma EditSetsTheHevcFlag(nal: Bytes, s: Hevc)
    requires HevcOk(s) && Steady(s.sets) && Editable(nal, true)
    requires At(BitsOf(Rbsp(nal, true)), 0, HevcBits(s))
    ensures if HevcHasFlag(s) then SetsFlagAt(nal, true, |HevcBits(s)|) else Edit(nal, true, FullRange).0 == 0
  {
    hide *;
    EditableStart(nal, true);
    HevcWalkIsExact(BitsOf(Rbsp(nal, true)), s);
    WalkOf(BitsOf(Rbsp(nal, true)));
    if HevcHasFlag(s) {
      SetsFlag(nal, true, |HevcBits(s)|);
    } else {
      NoFlag(nal, true);
    }
  }

  lemma WalkOf(bs: Bits)
    ensures FullRangeWalk(bs, false) == H264Walk(bs) && FullRangeWalk(bs, true) == H265Walk(bs)
  {
    hide H264Walk, H265Walk;
  }

  // ---- the function itself

  lemma WithMask(b: bv8, k: nat)
    requires k < 8
    ensures WithBit(b, k, true) == b | Mask(k) && WithBit(b, k, false) == b & !Mask(k)
  {
    hide Mask;
  }

  lemma SetBitIs(s: Bytes, k: nat, v: bool)
    requires k < 8 * |s|
    ensures SetBit(s, k, v) == s[k / 8 := WithBit(s[k / 8], k % 8, v)]
  {
    hide WithBit;
  }

  // One masked write
  method WriteBit(rbsp: array<bv8>, n: nat, pos: nat, v: bool)
    requires n <= rbsp.Length && pos < 8 * n
    modifies rbsp
    ensures rbsp[..n] == SetBit(old(rbsp[..n]), pos, v)
  {
    hide *;
    ghost var was := rbsp[..n];
    var mask := Mask(pos % 8);
    WithMask(was[pos / 8], pos % 8);
    SetBitIs(was, pos, v);
    if v {
      rbsp[pos / 8] := rbsp[pos / 8] | mask;
    } else {
      rbsp[pos / 8] := rbsp[pos / 8] & !mask;
    }
  }

  // The masked writes of one byte of matrix_coefficients
  method WriteMatrix(rbsp: array<bv8>, n: nat, mb: nat, m: nat)
    requires n <= rbsp.Length && mb + 8 <= 8 * n
    modifies rbsp
    ensures rbsp[..n] == SetByteFrom(old(rbsp[..n]), mb, m, 0)
  {
    hide WithBit, ByteBit, SetBit;
    ghost var final := SetByteFrom(rbsp[..n], mb, m, 0);
    for i := 0 to 8
      invariant SetByteFrom(rbsp[..n], mb, m, i) == final
    {
      ghost var s := rbsp[..n];
      var pos := mb + i;
      WriteBit(rbsp, n, pos, ByteBit(m, i));
    }
  }

  method FlagOffset(rbsp: array<bv8>, n: nat, h265: bool) returns (bit: int, b: BitReader)
    requires n <= rbsp.Length
    ensures fresh(b) && b.buf == rbsp && b.size == n && b.Valid()
    ensures bit == CodeOf(FullRangeWalk(BitsOf(rbsp[..n]), h265))
  {
    hide H264Walk, H265Walk;
    b := new BitReader(rbsp, n);
    if h265 {
      bit := H265FullRangeBit(b);
    } else {
      bit := H264FullRangeBit(b);
    }
  }

  // What a change reports, and the bytes it leaves when it was made
  predicate Reports(r: int, rbsp: Bytes, out: Outcome) {
    match out
    case Fail => r == -1
    case Same => r == 0
    case Changed(s) => r == 1 && rbsp == s
  }

  method ChangeFlag(rbsp: array<bv8>, n: nat, bit: nat) returns (r: int)
    requires n <= rbsp.Length && bit < 8 * n
    modifies rbsp
    ensures Reports(r, rbsp[..n], EditAt(old(rbsp[..n]), bit, FullRange))
  {
    hide BitsOf, Mask;
    ghost var s := rbsp[..n];
    BitIs(s, bit);
    if Has(rbsp[bit / 8], bit % 8) {
      return 0;
    }
    WriteBit(rbsp, n, bit, true);
    r := 1;
  }

  method ChangeMatrix(rbsp: array<bv8>, n: nat, b: BitReader, bit: nat, m: nat) returns (r: int)
    requires b.Valid() && b.buf == rbsp && b.size == n && bit < 8 * n && m < 256
    modifies rbsp, b
    ensures Reports(r, rbsp[..n], EditAt(old(rbsp[..n]), bit, Matrix(m)))
  {
    hide MatrixWalk, BitsOf, SetByteFrom, Read;
    var mbit := VuiMatrixBit(b, bit);
    if mbit == -2 {
      return 0;
    }
    if mbit < 0 || mbit + 8 > n * 8 {
      return -1;
    }
    b.bit := mbit;
    b.overflow := false;
    var coded := b.VbRead(8);
    if coded == m {
      return 0;
    }
    WriteMatrix(rbsp, n, mbit, m);
    r := 1;
  }

  // The change to the unescaped body: 1 when it was made, else 0 or -1
  method ChangeBody(rbsp: array<bv8>, n: nat, h265: bool, matrix: int) returns (r: int)
    requires n <= rbsp.Length && matrix < 256
    modifies rbsp
    ensures Reports(r, rbsp[..n], EditRbsp(old(rbsp[..n]), h265, TargetOf(matrix)))
  {
    hide FullRangeWalk, BitsOf, MatrixWalk, Read, SetBit, SetByteFrom;
    var bit, b := FlagOffset(rbsp, n, h265);
    if bit == -2 {
      return 0;
    }
    if bit < 0 || bit >= n * 8 {
      return -1;
    }
    if matrix < 0 {
      r := ChangeFlag(rbsp, n, bit);
    } else {
      r := ChangeMatrix(rbsp, n, b, bit, matrix);
    }
  }

  function TargetOf(matrix: int): Target {
    if matrix < 0 then FullRange else Matrix(matrix)
  }

  method CopyInto(nal: array<bv8>, start: nat, src: array<bv8>, n: nat)
    requires start + n == nal.Length && n <= src.Length && nal != src
    modifies nal
    ensures nal[..] == old(nal[..start]) + src[..n]
  {
    for i := 0 to n
      invariant nal[..start] == old(nal[..start])
      invariant nal[start..start + i] == src[..i]
    {
      ghost var done := nal[start..start + i];
      nal[start + i] := src[i];
      assert nal[start..start + i + 1] == done + [src[i]];
    }
    assert nal[..] == nal[..start] + nal[start..start + n];
  }

  method SkipStartCode(nal: array<bv8>) returns (start: nat)
    ensures start == StartCode(nal[..])
  {
    start := 0;
    if nal.Length > 4 && nal[0] == 0 && nal[1] == 0 {
      if nal[2] == 1 {
        start := 3;
      } else if nal[2] == 0 && nal[3] == 1 {
        start := 4;
      }
    }
  }

  /** vui_edit, in place. `matrix` below zero sets the full range flag. */
  method EditSps(nal: array<bv8>, h265: bool, matrix: int) returns (r: int)
    requires matrix < 256
    modifies nal
    ensures (r, nal[..]) == Edit(old(nal[..]), h265, TargetOf(matrix))
  {
    if nal.Length < 4 {
      return -1;
    }
    var code := SkipStartCode(nal);
    var start := code + (if h265 then 2 else 1);
    if nal.Length <= start || nal.Length - start > RBSP_MAX {
      return -1;
    }
    if h265 {
      if (nal[code] >> 1) & 0x3f != 33 {
        return -1;
      }
    } else {
      if nal[code] & 0x1f != 7 {
        return -1;
      }
    }
    assert Editable(nal[..], h265);
    r := Commit(nal, start, h265, matrix);
  }

  // Unescape, change, escape, and copy back when the length is unchanged
  method Commit(nal: array<bv8>, start: nat, h265: bool, matrix: int) returns (r: int)
    requires matrix < 256 && Editable(nal[..], h265) && start == BodyStart(nal[..], h265)
    modifies nal
    ensures (r, nal[..]) == Edit(old(nal[..]), h265, TargetOf(matrix))
  {
    hide EditRbsp, Unescape, Escape, IsSps, StartCode;
    ghost var before := nal[..];
    var rbsp := new bv8[RBSP_MAX];
    assert nal[start..] == before[start..];
    UnescapedShorter(nal[start..], 0);
    var n := UnescapeBody(nal[start..], rbsp);
    r := ChangeBody(rbsp, n, h265, matrix);
    if r == 1 {
      var esc := new bv8[RBSP_MAX + 64];
      var m := EscapeInto(rbsp[..n], esc);
      if m != nal.Length - start {
        return -1;
      }
      CopyInto(nal, start, esc, m);
      assert nal[..] == before[..start] + esc[..m];
    }
  }

  method UnescapeBody(body: Bytes, rbsp: array<bv8>) returns (n: nat)
    requires |body| <= rbsp.Length
    modifies rbsp
    ensures n <= rbsp.Length && rbsp[..n] == Unescape(body)
  {
    UnescapedShorter(body, 0);
    n := UnescapeInto(body, rbsp);
  }
}
