/** The H.265 sequence parameter set of sections 7.3.2.2.1, 7.3.3, 7.3.4 and 7.3.7 of
    ITU-T H.265 as a syntax tree, its bits up to video_full_range_flag, and the
    short-term reference picture sets that section 7.4.8 derives from it. */
module VuiHevc {
  import opened Basics
  import opened VuiBits
  import opened VuiWalk
  import opened VuiSyntax

  // ---- the syntax tree

  // The 88 bits of a profile, as 8, 32, 32 and 16
  datatype Profile = Profile(idc: nat, compat: nat, flags: nat, rest: nat)

  datatype SubLayer = SubLayer(profile: Option<Profile>, level: Option<nat>)

  datatype Layers = Layers(general: Profile, level: nat, subs: seq<SubLayer>)

  datatype Size = Size(id: nat, chroma: nat, separate: bool, width: nat, height: nat, window: Option<Crop>,
                       lumaDepth: nat, chromaDepth: nat)

  // One scaling list: predicted from another, or coded with its coefficients
  datatype Matrix = Predicted(delta: nat) | Coded(dc: int, coefs: seq<int>)

  datatype Pcm = Pcm(luma: nat, chroma: nat, minSize: nat, diffSize: nat, noLoop: bool)

  datatype Coding = Coding(blocks: seq<nat>, lists: Option<Option<seq<seq<Matrix>>>>, amp: bool, sao: bool,
                           pcm: Option<Pcm>)

  // delta_poc_minus1 and used_by_curr_pic_flag
  datatype Step1 = Step1(minus1: nat, used: bool)

  // used_by_curr_pic_flag and, when that is 0, use_delta_flag
  datatype Entry = Entry(used: bool, delta: bool)

  datatype RefSet =
    | Explicit(neg: seq<Step1>, pos: seq<Step1>)
    | Inter(sign: bool, absMinus1: nat, entries: seq<Entry>)

  datatype LongTermPic = LongTermPic(lsb: nat, used: bool)

  datatype Hevc = Hevc(vps: nat, nesting: bool, layers: Layers, size: Size, log2: nat, ordering: bool, dpb: seq<nat>,
                       coding: Coding, sets: seq<RefSet>, long: Option<seq<LongTermPic>>,
                       mvp: bool, strong: bool, vui: Option<Vui>)

  // ---- its bits

  function UeFields(us: seq<nat>): seq<Field> {
    if us == [] then [] else [UE(us[0])] + UeFields(us[1..])
  }

  function ProfileFields(p: Profile): seq<Field> {
    [U(8, p.idc), U(32, p.compat), U(32, p.flags), U(16, p.rest)]
  }

  function PresenceFields(subs: seq<SubLayer>): seq<Field> {
    if subs == [] then []
    else [Flag(subs[0].profile.Some?)] + ([Flag(subs[0].level.Some?)] + PresenceFields(subs[1..]))
  }

  // reserved_zero_2bits
  function AlignFields(n: nat): seq<Field> {
    if n == 0 then [] else [U(2, 0)] + AlignFields(n - 1)
  }

  function LevelFields(level: Option<nat>): seq<Field> {
    if level.Some? then [U(8, level.value)] else []
  }

  function SubFields(subs: seq<SubLayer>): seq<Field> {
    if subs == [] then []
    else (if subs[0].profile.Some? then ProfileFields(subs[0].profile.value) else [])
         + LevelFields(subs[0].level) + SubFields(subs[1..])
  }

  function LayersFields(l: Layers): seq<Field> {
    ProfileFields(l.general) + [U(8, l.level)] + PresenceFields(l.subs)
    + (if 0 < |l.subs| <= 8 then AlignFields(8 - |l.subs|) else []) + SubFields(l.subs)
  }

  function WindowFields(w: Option<Crop>): seq<Field> {
    [Flag(w.Some?)] + (if w.Some? then UeFields([w.value.left, w.value.right, w.value.top, w.value.bottom]) else [])
  }

  function SizeFields(s: Size): seq<Field> {
    [UE(s.id)] + ([UE(s.chroma)] + (if s.chroma == 3 then [Flag(s.separate)] else []))
    + UeFields([s.width, s.height]) + WindowFields(s.window) + UeFields([s.lumaDepth, s.chromaDepth])
  }

  function MatrixBits(m: Matrix, sizeId: nat): seq<Field> {
    match m
    case Predicted(delta) => [Flag(false)] + [UE(delta)]
    case Coded(dc, coefs) => [Flag(true)] + ((if sizeId > 1 then [SE(dc)] else []) + SeFields(coefs))
  }

  function RowFields(row: seq<Matrix>, sizeId: nat): seq<Field> {
    if row == [] then [] else MatrixBits(row[0], sizeId) + RowFields(row[1..], sizeId)
  }

  function ScalingFields(rows: seq<seq<Matrix>>, sizeId: nat): seq<Field> {
    if rows == [] then [] else RowFields(rows[0], sizeId) + ScalingFields(rows[1..], sizeId + 1)
  }

  function DataFields(data: Option<seq<seq<Matrix>>>): seq<Field> {
    [Flag(data.Some?)] + (if data.Some? then ScalingFields(data.value, 0) else [])
  }

  function ListsFields(lists: Option<Option<seq<seq<Matrix>>>>): seq<Field> {
    [Flag(lists.Some?)] + (if lists.Some? then DataFields(lists.value) else [])
  }

  function PcmFields(p: Option<Pcm>): seq<Field> {
    [Flag(p.Some?)] +
    match p
    case None => []
    case Some(x) => [U(4, x.luma)] + ([U(4, x.chroma)] + (UeFields([x.minSize, x.diffSize]) + [Flag(x.noLoop)]))
  }

  function CodingFields(x: Coding): seq<Field> {
    UeFields(x.blocks) + ListsFields(x.lists) + ([Flag(x.amp)] + ([Flag(x.sao)] + PcmFields(x.pcm)))
  }

  function StepFields(ps: seq<Step1>): seq<Field> {
    if ps == [] then [] else [UE(ps[0].minus1)] + ([Flag(ps[0].used)] + StepFields(ps[1..]))
  }

  function EntryFields(es: seq<Entry>): seq<Field> {
    if es == [] then []
    else [Flag(es[0].used)] + ((if es[0].used then [] else [Flag(es[0].delta)]) + EntryFields(es[1..]))
  }

  function SetBody(s: RefSet): seq<Field> {
    match s
    case Explicit(neg, pos) => [UE(|neg|)] + ([UE(|pos|)] + (StepFields(neg) + StepFields(pos)))
    case Inter(sign, absMinus1, entries) => [Flag(sign)] + ([UE(absMinus1)] + EntryFields(entries))
  }

  // The first set has no inter_ref_pic_set_prediction_flag.
  function SetFields(s: RefSet, i: nat): seq<Field> {
    (if i > 0 then [Flag(s.Inter?)] else []) + SetBody(s)
  }

  function SetsFields(sets: seq<RefSet>, i: nat): seq<Field>
    requires i <= |sets|
    decreases |sets| - i
  {
    if i == |sets| then [] else SetFields(sets[i], i) + SetsFields(sets, i + 1)
  }

  function LongPics(ps: seq<LongTermPic>, bits: nat): seq<Field> {
    if ps == [] then [] else [U(bits, ps[0].lsb)] + ([Flag(ps[0].used)] + LongPics(ps[1..], bits))
  }

  function LongFields(long: Option<seq<LongTermPic>>, bits: nat): seq<Field> {
    [Flag(long.Some?)] + (if long.Some? then [UE(|long.value|)] + LongPics(long.value, bits) else [])
  }

  function TopFields(s: Hevc): seq<Field> {
    [U(4, s.vps)] + ([U(3, |s.layers.subs|)] + ([Flag(s.nesting)] + LayersFields(s.layers)))
  }

  function OrderFields(s: Hevc): seq<Field> {
    SizeFields(s.size) + ([UE(s.log2)] + ([Flag(s.ordering)] + UeFields(s.dpb))) + CodingFields(s.coding)
  }

  function RefFields(s: Hevc): seq<Field> {
    [UE(|s.sets|)] + SetsFields(s.sets, 0) + LongFields(s.long, s.log2 + 4)
  }

  function HevcFields(s: Hevc): seq<Field> {
    TopFields(s) + OrderFields(s) + RefFields(s) + ([Flag(s.mvp)] + ([Flag(s.strong)] + VuiFields(s.vui)))
  }

  // ---- the reference picture sets, section 7.4.8

  // Distances of the pictures before and after the current one, nearest first
  datatype Pocs = Pocs(before: seq<int>, after: seq<int>)

  function NumDeltaPocs(p: Pocs): nat {
    |p.before| + |p.after|
  }

  function Distances(ps: seq<Step1>, from: int, sign: int): (r: seq<int>)
    ensures |r| == |ps|
  {
    if ps == [] then []
    else
      var d := from + sign * (ps[0].minus1 + 1);
      [d] + Distances(ps[1..], d, sign)
  }

  // use_delta_flag, inferred to be 1 for a used entry
  function Kept(es: seq<Entry>): (r: seq<bool>)
    ensures |r| == |es|
  {
    seq(|es|, i requires 0 <= i < |es| => es[i].used || es[i].delta)
  }

  // The kept candidates on one side of the current picture
  function Side(cs: seq<int>, kept: seq<bool>, sign: int): seq<int>
    requires |cs| == |kept|
  {
    if cs == [] then []
    else (if kept[0] && sign * cs[0] > 0 then [cs[0]] else []) + Side(cs[1..], kept[1..], sign)
  }

  function Turned<T>(s: seq<T>): (r: seq<T>)
    ensures |r| == |s|
  {
    if s == [] then [] else Turned(s[1..]) + [s[0]]
  }

  function MovedBy(cs: seq<int>, d: int): (r: seq<int>)
    ensures |r| == |cs|
  {
    seq(|cs|, i requires 0 <= i < |cs| => cs[i] + d)
  }

  function DeltaRps(s: RefSet): int
    requires s.Inter?
  {
    if s.sign then -(s.absMinus1 as int + 1) else s.absMinus1 as int + 1
  }

  // The equations (7-61) and (7-62): candidates of the other side come last to first.
  function Predict(ref: Pocs, s: RefSet): Pocs
    requires s.Inter? && |s.entries| == NumDeltaPocs(ref) + 1
  {
    var d, kept, n := DeltaRps(s), Kept(s.entries), |ref.before|;
    var b, a := MovedBy(ref.before, d), MovedBy(ref.after, d);
    var keptB, keptA, keptD := kept[..n], kept[n..n + |ref.after|], [kept[n + |ref.after|]];
    Pocs(Side(Turned(a), Turned(keptA), -1) + Side([d], keptD, -1) + Side(b, keptB, -1),
         Side(Turned(b), Turned(keptB), 1) + Side([d], keptD, 1) + Side(a, keptA, 1))
  }

  // Each inter-predicted set has an entry for every picture of the set before, and one.
  predicate SetsOk(sets: seq<RefSet>, n: nat)
    requires n <= |sets|
    decreases n, 0
  {
    n > 0 ==>
      && SetsOk(sets, n - 1)
      && match sets[n - 1]
         case Explicit(neg, pos) => |neg| <= 64 && |pos| <= 64
         case Inter(_, _, entries) => n > 1 && |entries| == NumDeltaPocs(PocsOf(sets, n - 1)) + 1
  }

  // The pictures of set n - 1
  function PocsOf(sets: seq<RefSet>, n: nat): Pocs
    requires 0 < n <= |sets| && SetsOk(sets, n)
    decreases n, 1
  {
    match sets[n - 1]
    case Explicit(neg, pos) => Pocs(Distances(neg, 0, -1), Distances(pos, 0, 1))
    case Inter(_, _, _) => Predict(PocsOf(sets, n - 1), sets[n - 1])
  }

  // ---- which trees conform

  // Two matrices of 32x32, six of each other size
  function MatricesOf(sizeId: nat): nat {
    if sizeId < 3 then 6 else 2
  }

  // 4x4 coefficients, or 64 of a larger matrix
  function CoefsOf(sizeId: nat): nat {
    if sizeId == 0 then 4 * 4 else 8 * 8
  }

  predicate RowOk(row: seq<Matrix>, sizeId: nat) {
    && |row| == MatricesOf(sizeId)
    && forall i | 0 <= i < |row| && row[i].Coded? :: |row[i].coefs| == CoefsOf(sizeId)
  }

  predicate ScalingOk(rows: seq<seq<Matrix>>) {
    |rows| == 4 && forall i | 0 <= i < 4 :: RowOk(rows[i], i)
  }

  predicate CodingOk(x: Coding) {
    && |x.blocks| == 6
    && (x.lists.Some? && x.lists.value.Some? ==> ScalingOk(x.lists.value.value))
  }

  predicate HevcOk(s: Hevc) {
    && AllOk(HevcFields(s))
    && |s.layers.subs| < 8 && CodingOk(s.coding)
    && s.log2 <= 12 && |s.dpb| == 3 * (if s.ordering then |s.layers.subs| + 1 else 1)
    && |s.sets| <= 64 && SetsOk(s.sets, |s.sets|)
    && (s.long.Some? ==> |s.long.value| <= 32)
  }

  // The bits in front of video_full_range_flag
  function HevcBits(s: Hevc): Bits {
    Encode(HevcFields(s))
  }

  // The same, and on to the end of the colour description
  function HevcSpsBits(s: Hevc): Bits {
    Encode(HevcFields(s) + SignalFields(s.vui))
  }

  predicate HevcHasFlag(s: Hevc) {
    s.vui.Some? && s.vui.value.signal.Some?
  }

  // ---- how many entries the walker expects

  function CountTrue(bs: seq<bool>): nat {
    if bs == [] then 0 else (if bs[0] then 1 else 0) + CountTrue(bs[1..])
  }

  // What the walker counts for a set: every entry that is kept
  function WalkCount(s: RefSet): nat {
    match s
    case Explicit(neg, pos) => |neg| + |pos|
    case Inter(_, _, entries) => CountTrue(Kept(entries))
  }

  // How many kept candidates are at the current picture itself
  function AtZero(cs: seq<int>, kept: seq<bool>): nat
    requires |cs| == |kept|
  {
    if cs == [] then 0 else (if kept[0] && cs[0] == 0 then 1 else 0) + AtZero(cs[1..], kept[1..])
  }

  // The candidates of an inter-predicted set, in the order of its entries
  function Candidates(ref: Pocs, s: RefSet): (cs: seq<int>)
    requires s.Inter?
    ensures |cs| == NumDeltaPocs(ref) + 1
  {
    MovedBy(ref.before + ref.after + [0], DeltaRps(s))
  }

  lemma {:induction false} SideConcat(a: seq<int>, ka: seq<bool>, b: seq<int>, kb: seq<bool>, sign: int)
    requires |a| == |ka| && |b| == |kb|
    ensures Side(a + b, ka + kb, sign) == Side(a, ka, sign) + Side(b, kb, sign)
  {
    if a == [] {
      assert a + b == b && ka + kb == kb;
    } else {
      assert (a + b)[0] == a[0] && (a + b)[1..] == a[1..] + b;
      assert (ka + kb)[0] == ka[0] && (ka + kb)[1..] == ka[1..] + kb;
      SideConcat(a[1..], ka[1..], b, kb, sign);
    }
  }

  lemma {:induction false} TurnedSide(a: seq<int>, ka: seq<bool>, sign: int)
    requires |a| == |ka|
    ensures |Side(Turned(a), Turned(ka), sign)| == |Side(a, ka, sign)|
  {
    if a != [] {
      TurnedSide(a[1..], ka[1..], sign);
      SideConcat(Turned(a[1..]), Turned(ka[1..]), [a[0]], [ka[0]], sign);
      assert [a[0]][1..] == [] && [ka[0]][1..] == [];
    }
  }

  lemma {:induction false} SidesCount(cs: seq<int>, kept: seq<bool>)
    requires |cs| == |kept|
    ensures |Side(cs, kept, -1)| + |Side(cs, kept, 1)| + AtZero(cs, kept) == CountTrue(kept)
  {
    if cs != [] {
      SidesCount(cs[1..], kept[1..]);
    }
  }

  lemma MovedConcat(a: seq<int>, b: seq<int>, d: int)
    ensures MovedBy(a + b, d) == MovedBy(a, d) + MovedBy(b, d)
    ensures MovedBy([0], d) == [d]
  {
  }

  /** The walker counts a set as section 7.4.8 does, except that a kept candidate at the
      current picture itself counts for it and for no list of the standard. */
  lemma CountsOf(sets: seq<RefSet>, n: nat)
    requires 0 < n <= |sets| && SetsOk(sets, n)
    ensures WalkCount(sets[n - 1])
         == NumDeltaPocs(PocsOf(sets, n))
            + if sets[n - 1].Inter? then AtZero(Candidates(PocsOf(sets, n - 1), sets[n - 1]), Kept(sets[n - 1].entries)) else 0
  {
    var s := sets[n - 1];
    if s.Inter? {
      var ref := PocsOf(sets, n - 1);
      var d, kept, m := DeltaRps(s), Kept(s.entries), |ref.before|;
      var b, a := MovedBy(ref.before, d), MovedBy(ref.after, d);
      var keptB, keptA, keptD := kept[..m], kept[m..m + |ref.after|], [kept[m + |ref.after|]];
      MovedConcat(ref.before + ref.after, [0], d);
      MovedConcat(ref.before, ref.after, d);
      assert Candidates(ref, s) == b + a + [d] && kept == keptB + keptA + keptD;
      hide Kept, MovedBy, DeltaRps, Candidates;
      PartsCount(b, keptB, a, keptA, [d], keptD);
    }
  }

  lemma PartsCount(b: seq<int>, keptB: seq<bool>, a: seq<int>, keptA: seq<bool>, d: seq<int>, keptD: seq<bool>)
    requires |b| == |keptB| && |a| == |keptA| && |d| == |keptD|
    ensures |Side(Turned(a), Turned(keptA), -1) + Side(d, keptD, -1) + Side(b, keptB, -1)|
            + |Side(Turned(b), Turned(keptB), 1) + Side(d, keptD, 1) + Side(a, keptA, 1)|
            + AtZero(b + a + d, keptB + keptA + keptD) == CountTrue(keptB + keptA + keptD)
  {
    hide *;
    SidesCount(b + a + d, keptB + keptA + keptD);
    SideConcat(b + a, keptB + keptA, d, keptD, -1);
    SideConcat(b + a, keptB + keptA, d, keptD, 1);
    SideConcat(b, keptB, a, keptA, -1);
    SideConcat(b, keptB, a, keptA, 1);
    TurnedSide(a, keptA, -1);
    TurnedSide(b, keptB, 1);
  }

  /** No inter-predicted set that another is predicted from keeps a candidate at the
      current picture itself. */
  predicate Steady(sets: seq<RefSet>)
    requires SetsOk(sets, |sets|)
  {
    forall i | 0 <= i < |sets| - 1 && sets[i + 1].Inter? :: KeepsNone(sets, i)
  }

  predicate KeepsNone(sets: seq<RefSet>, i: nat)
    requires i < |sets| && SetsOk(sets, |sets|)
  {
    SetsPrefix(sets, i + 1, |sets|);
    sets[i].Inter? ==> AtZero(Candidates(PocsOf(sets, i), sets[i]), Kept(sets[i].entries)) == 0
  }

  lemma KeepsNoneCounts(sets: seq<RefSet>, i: nat)
    requires i < |sets| && SetsOk(sets, |sets|)
    ensures SetsOk(sets, i + 1)
    ensures if KeepsNone(sets, i) then WalkCount(sets[i]) == NumDeltaPocs(PocsOf(sets, i + 1))
            else WalkCount(sets[i]) > NumDeltaPocs(PocsOf(sets, i + 1))
  {
    SetsPrefix(sets, i + 1, |sets|);
    CountsOf(sets, i + 1);
    hide WalkCount, NumDeltaPocs, AtZero, Candidates, Kept, Predict;
  }

  lemma {:induction false} SetsPrefix(sets: seq<RefSet>, m: nat, n: nat)
    requires m <= n <= |sets| && SetsOk(sets, n)
    ensures SetsOk(sets, m)
  {
    if m < n {
      SetsPrefix(sets, m, n - 1);
    }
  }
}
