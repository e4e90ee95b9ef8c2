/** The H.264 sequence parameter set of section 7.3.2.1.1 of ITU-T H.264 as a
    syntax tree, its bits up to video_full_range_flag, and the proof that the
    walk stops exactly there. */
module VuiSyntax {
  import opened Basics
  import opened VuiEscape
  import opened VuiBits
  import opened VuiWalk

  // ---- syntax elements

  datatype Field = U(n: nat, v: nat) | UE(code: nat) | SE(k: int)

  function Flag(b: bool): Field {
    U(1, if b then 1 else 0)
  }

  predicate FieldOk(f: Field) {
    match f
    case U(n, v) => n <= 32 && v < Pow2(n)
    case UE(v) => v < 0xFFFF_FFFF
    case SE(k) => -0x7FFF_FFFF <= k <= 0x7FFF_FFFF
  }

  predicate AllOk(fs: seq<Field>) {
    forall i | 0 <= i < |fs| :: FieldOk(fs[i])
  }

  function FieldBits(f: Field): Bits {
    match f
    case U(n, v) => UBits(n, v)
    case UE(v) => UeBits(v)
    case SE(k) => SeBits(k)
  }

  function Encode(fs: seq<Field>): Bits {
    if fs == [] then [] else FieldBits(fs[0]) + Encode(fs[1..])
  }

  lemma {:induction false} EncodeConcat(a: seq<Field>, b: seq<Field>)
    ensures Encode(a + b) == Encode(a) + Encode(b)
  {
    if a == [] {
      assert a + b == b;
    } else {
      assert (a + b)[0] == a[0] && (a + b)[1..] == a[1..] + b;
      EncodeConcat(a[1..], b);
      assert FieldBits(a[0]) + (Encode(a[1..]) + Encode(b)) == FieldBits(a[0]) + Encode(a[1..]) + Encode(b);
    }
  }

  // ---- the syntax tree

  // scaling_list: the deltas that are coded; coding stops once the next scale is 0
  type ListDeltas = seq<int>

  datatype High = High(chroma: nat, separate: bool, lumaDepth: nat, chromaDepth: nat, bypass: bool,
                       matrix: Option<seq<Option<ListDeltas>>>)

  datatype Poc =
    | Poc0(log2Lsb: nat)
    | Poc1(alwaysZero: bool, nonRef: int, topBottom: int, offsets: seq<int>)
    | Poc2

  datatype Crop = Crop(left: nat, right: nat, top: nat, bottom: nat)

  datatype Frame = Frame(refs: nat, gaps: bool, width: nat, height: nat,
                         frameOnly: bool, adaptive: bool, direct: bool, crop: Option<Crop>)

  // aspect_ratio_idc, with the sizes when it is Extended_SAR (255)
  datatype Aspect = Aspect(idc: nat, width: nat, height: nat)

  datatype Colour = Colour(primaries: nat, transfer: nat, matrix: nat)

  // video_format, video_full_range_flag and the colour description
  datatype Signal = Signal(format: nat, fullRange: bool, colour: Option<Colour>)

  datatype Vui = Vui(aspect: Option<Aspect>, overscan: Option<bool>, signal: Option<Signal>)

  datatype Sps = Sps(profile: nat, constraints: nat, level: nat, id: nat, high: High,
                     log2Frame: nat, poc: Poc, frame: Frame, vui: Option<Vui>)

  // ---- its bits

  function SeFields(ks: seq<int>): seq<Field> {
    if ks == [] then [] else [SE(ks[0])] + SeFields(ks[1..])
  }

  function ListFields(l: Option<ListDeltas>): seq<Field> {
    [Flag(l.Some?)] + (if l.Some? then SeFields(l.value) else [])
  }

  function MatrixFields(lists: seq<Option<ListDeltas>>): seq<Field> {
    if lists == [] then [] else ListFields(lists[0]) + MatrixFields(lists[1..])
  }

  function HighFields(h: High): seq<Field> {
    [UE(h.chroma)] + (if h.chroma == 3 then [Flag(h.separate)] else [])
    + [UE(h.lumaDepth), UE(h.chromaDepth), Flag(h.bypass), Flag(h.matrix.Some?)]
    + (if h.matrix.Some? then MatrixFields(h.matrix.value) else [])
  }

  function PocFields(log2Frame: nat, p: Poc): seq<Field> {
    [UE(log2Frame)] +
    match p
    case Poc0(log2) => [UE(0), UE(log2)]
    case Poc1(zero, nonRef, tb, offsets) =>
      [UE(1), Flag(zero), SE(nonRef), SE(tb), UE(|offsets|)] + SeFields(offsets)
    case Poc2 => [UE(2)]
  }

  function FrameFields(f: Frame): seq<Field> {
    [UE(f.refs), Flag(f.gaps), UE(f.width), UE(f.height), Flag(f.frameOnly)]
    + (if f.frameOnly then [] else [Flag(f.adaptive)])
    + [Flag(f.direct), Flag(f.crop.Some?)]
    + match f.crop
      case None => []
      case Some(c) => [UE(c.left), UE(c.right), UE(c.top), UE(c.bottom)]
  }

  function AspectFields(a: Option<Aspect>): seq<Field> {
    [Flag(a.Some?)] +
    match a
    case None => []
    case Some(x) => [U(8, x.idc)] + (if x.idc == 255 then [U(16, x.width), U(16, x.height)] else [])
  }

  function OverscanFields(o: Option<bool>): seq<Field> {
    [Flag(o.Some?)] + (if o.Some? then [Flag(o.value)] else [])
  }

  // Up to video_full_range_flag, or to the flag that says there is none
  function VuiFields(v: Option<Vui>): seq<Field> {
    [Flag(v.Some?)] +
    match v
    case None => []
    case Some(x) =>
      AspectFields(x.aspect) + OverscanFields(x.overscan)
      + ([Flag(x.signal.Some?)] + (if x.signal.Some? then [U(3, x.signal.value.format)] else []))
  }

  // From video_full_range_flag to the colour description
  function ColourFields(g: Signal): seq<Field> {
    [Flag(g.fullRange)] + ([Flag(g.colour.Some?)] +
    match g.colour
    case None => []
    case Some(x) => [U(8, x.primaries)] + ([U(8, x.transfer)] + [U(8, x.matrix)]))
  }

  function SignalFields(v: Option<Vui>): seq<Field> {
    if v.Some? && v.value.signal.Some? then ColourFields(v.value.signal.value) else []
  }

  function HeadFields(s: Sps): seq<Field> {
    [U(8, s.profile), U(8, s.constraints), U(8, s.level), UE(s.id)]
  }

  // The profiles whose parameter sets carry chroma_format_idc and what follows it
  predicate WithChroma(profile: nat) {
    || profile == 100 || profile == 110 || profile == 122 || profile == 244 || profile == 44 || profile == 83
    || profile == 86 || profile == 118 || profile == 128 || profile == 138 || profile == 139 || profile == 134
    || profile == 135
  }

  function SpsFields(s: Sps): seq<Field> {
    HeadFields(s) + (if WithChroma(s.profile) then HighFields(s.high) else [])
    + PocFields(s.log2Frame, s.poc) + FrameFields(s.frame) + VuiFields(s.vui)
  }

  // The bits in front of video_full_range_flag
  function BitsBeforeFlag(s: Sps): Bits {
    Encode(SpsFields(s))
  }

  // The same, and on to the end of the colour description
  function SpsBits(s: Sps): Bits {
    Encode(SpsFields(s) + SignalFields(s.vui))
  }

  predicate HasFlag(s: Sps) {
    s.vui.Some? && s.vui.value.signal.Some?
  }

  // ---- which trees conform

  // The deltas coded from entry j on, with the running last and next scales
  predicate ListOk(deltas: ListDeltas, j: nat, size: nat, last: int, next: int)
    decreases size - j
  {
    if j >= size || next == 0 then deltas == []
    else
      deltas != [] && -128 <= deltas[0] <= 127 &&
      var n := (last + deltas[0] + 256) % 256;
      ListOk(deltas[1..], j + 1, size, if n == 0 then last else n, n)
  }

  // Six 4x4 lists, then the 8x8 ones
  function ListLength(i: nat): nat {
    if i <= 5 then 4 * 4 else 8 * 8
  }

  predicate MatrixOk(lists: seq<Option<ListDeltas>>, i: nat)
    decreases |lists|
  {
    lists != [] ==>
      && (lists[0].Some? ==> ListOk(lists[0].value, 0, ListLength(i), 8, 8))
      && MatrixOk(lists[1..], i + 1)
  }

  predicate HighOk(h: High) {
    h.matrix.Some? ==> |h.matrix.value| == (if h.chroma == 3 then 12 else 8) && MatrixOk(h.matrix.value, 0)
  }

  predicate SpsOk(s: Sps) {
    && AllOk(SpsFields(s))
    && (WithChroma(s.profile) ==> HighOk(s.high))
    && (s.poc.Poc1? ==> |s.poc.offsets| <= 255)
  }

  // ---- reading fields

  // The fields fs are what the buffer holds from the cursor on.
  predicate Holds(bs: Bits, c: Cur, fs: seq<Field>) {
    !c.overflow && AllOk(fs) && At(bs, c.bit, Encode(fs))
  }

  function Past(c: Cur, fs: seq<Field>): Cur {
    c.(bit := c.bit + |Encode(fs)|)
  }

  lemma HoldsSplit(bs: Bits, c: Cur, a: seq<Field>, b: seq<Field>)
    ensures Holds(bs, c, a + b) <==> Holds(bs, c, a) && Holds(bs, Past(c, a), b)
    ensures Past(c, a + b) == Past(Past(c, a), b)
  {
    hide Encode, AllOk, At;
    EncodeConcat(a, b);
    AtSplit(bs, c.bit, Encode(a), Encode(b));
    AllOkConcat(a, b);
  }

  lemma AllOkConcat(a: seq<Field>, b: seq<Field>)
    ensures AllOk(a + b) <==> AllOk(a) && AllOk(b)
  {
    if AllOk(a + b) {
      assert forall i | 0 <= i < |a| :: (a + b)[i] == a[i];
      assert forall i | 0 <= i < |b| :: (a + b)[|a| + i] == b[i];
    }
  }

  lemma TakeRest(bs: Bits, c: Cur, fs: seq<Field>)
    requires fs != [] && Holds(bs, c, fs)
    ensures var d := c.(bit := c.bit + |FieldBits(fs[0])|);
            Holds(bs, d, fs[1..]) && Past(c, fs) == Past(d, fs[1..])
    ensures FieldOk(fs[0]) && At(bs, c.bit, FieldBits(fs[0]))
  {
    hide At, FieldBits, FieldOk;
    AtSplit(bs, c.bit, FieldBits(fs[0]), Encode(fs[1..]));
    assert forall i | 0 <= i < |fs| - 1 :: fs[1..][i] == fs[i + 1];
  }

  lemma FieldFacts(f: Field)
    requires FieldOk(f)
    ensures f.U? ==> f.n <= 32 && f.v < Pow2(f.n) && FieldBits(f) == UBits(f.n, f.v)
    ensures f.UE? ==> f.code + 1 < 0x1_0000_0000 && FieldBits(f) == UeBits(f.code)
    ensures f.SE? ==> -0x7FFF_FFFF <= f.k <= 0x7FFF_FFFF && FieldBits(f) == SeBits(f.k)
  {
  }

  lemma HoldsMoves(bs: Bits, c: Cur, fs: seq<Field>)
    requires Holds(bs, c, fs)
    ensures !c.overflow
  {
  }

  lemma SkipIs(bs: Bits, c: Cur, n: nat)
    ensures SkipU(bs, c, n) == Read(bs, c, n).0 && SkipUe(bs, c) == Ue(bs, c).0
  {
  }

  // Reading one field: the right value, and the other fields ahead

  lemma TakeU(bs: Bits, c: Cur, fs: seq<Field>) returns (d: Cur)
    requires fs != [] && Holds(bs, c, fs) && fs[0].U?
    ensures Holds(bs, d, fs[1..]) && Past(c, fs) == Past(d, fs[1..])
    ensures Read(bs, c, fs[0].n) == (d, fs[0].v) && SkipU(bs, c, fs[0].n) == d
  {
    hide *;
    TakeRest(bs, c, fs);
    FieldFacts(fs[0]);
    d := c.(bit := c.bit + |FieldBits(fs[0])|);
    ReadsU(bs, c, fs[0].n, fs[0].v);
    SkipIs(bs, c, fs[0].n);
  }

  lemma TakeUe(bs: Bits, c: Cur, fs: seq<Field>) returns (d: Cur)
    requires fs != [] && Holds(bs, c, fs) && fs[0].UE?
    ensures Holds(bs, d, fs[1..]) && Past(c, fs) == Past(d, fs[1..])
    ensures Ue(bs, c) == (d, fs[0].code) && SkipUe(bs, c) == d
  {
    hide *;
    TakeRest(bs, c, fs);
    FieldFacts(fs[0]);
    HoldsMoves(bs, c, fs);
    d := c.(bit := c.bit + |FieldBits(fs[0])|);
    ReadsUe(bs, c, fs[0].code);
    SkipIs(bs, c, 0);
  }

  lemma TakeSe(bs: Bits, c: Cur, fs: seq<Field>) returns (d: Cur)
    requires fs != [] && Holds(bs, c, fs) && fs[0].SE?
    ensures Holds(bs, d, fs[1..]) && Past(c, fs) == Past(d, fs[1..])
    ensures Se(bs, c) == (d, fs[0].k)
  {
    hide *;
    TakeRest(bs, c, fs);
    FieldFacts(fs[0]);
    HoldsMoves(bs, c, fs);
    d := c.(bit := c.bit + |FieldBits(fs[0])|);
    ReadsSe(bs, c, fs[0].k);
  }
}
