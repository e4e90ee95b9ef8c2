/** mpeg_crc32 over byte strings: the table loop against the division, and when
    the two agree. */
module TsCrc {
  import opened Basics
  import opened TsCrcOrder
  import opened TsCrcPowers
  import opened TsCrcShift
  import opened TsCrcTable

  const START: bv32 := 0xffff_ffff

  function Wide(b: bv8): (w: bv32)
    ensures w < 256
  {
    b as bv32
  }

  // The remainder after the bytes of data
  function Divide(c: bv32, data: Bytes): bv32
    decreases |data|
  {
    if data == [] then c else Divide(ByteIn(c, Wide(data[0])), data[1..])
  }

  /** The CRC of Annex A. */
  function Crc(data: Bytes): bv32 {
    Divide(START, data)
  }

  function TableRun(c: bv32, data: Bytes): bv32
    decreases |data|
  {
    if data == [] then c else TableRun(Turn(c, Wide(data[0])), data[1..])
  }

  // What mpeg_crc32 returns
  function TableCrc(data: Bytes): bv32 {
    TableRun(START, data)
  }

  method MpegCrc32(data: Bytes) returns (crc: bv32)
    ensures crc == TableCrc(data)
  {
    hide Table, Index;
    crc := START;
    assert data[0..] == data;
    for i := 0 to |data|
      invariant TableRun(crc, data[i..]) == TableCrc(data)
    {
      assert data[i..][1..] == data[i + 1..];
      crc := (crc << 8) ^ Table(Index(crc, Wide(data[i])));
    }
  }

  // ---- the drift of the table loop from the division

  function Drift(c: bv32, d: bv32, data: Bytes): bv32
    decreases |data|
  {
    if data == [] then d
    else
      var b := Wide(data[0]);
      Drift(Turn(c, b), ShiftEight(d) ^ Fault(Index(c, b)), data[1..])
  }

  lemma TurnDrifts(t: bv32, c: bv32, d: bv32, b: bv32)
    requires b < 256 && Sum(t, c, d)
    ensures Sum(Turn(t, b), ByteIn(c, b), ShiftEight(d) ^ Fault(Index(t, b)))
  {
    hide *;
    ByteInLinear(t, c, d, b);
    TurnIs(t, b);
    SumMore(Turn(t, b), ByteIn(t, b), ByteIn(c, b), ShiftEight(d), Fault(Index(t, b)));
  }

  lemma {:induction false} RunDrifts(t: bv32, c: bv32, d: bv32, data: Bytes)
    requires Sum(t, c, d)
    ensures Sum(TableRun(t, data), Divide(c, data), Drift(t, d, data))
    decreases |data|
  {
    hide Sum, Turn, ByteIn, ShiftEight, Fault, Index, Wide;
    if data != [] {
      var b := Wide(data[0]);
      TurnDrifts(t, c, d, b);
      RunDrifts(Turn(t, b), ByteIn(c, b), ShiftEight(d) ^ Fault(Index(t, b)), data[1..]);
    }
  }

  lemma SumSelf(c: bv32)
    ensures Sum(c, c, 0)
  {
  }

  /** The table-driven CRC is the division exactly when no drift is left. */
  lemma CrcAgrees(data: Bytes)
    ensures TableCrc(data) == Crc(data) <==> Drift(START, 0, data) == 0
  {
    hide Sum, TableRun, Divide, Drift;
    SumSelf(START);
    RunDrifts(START, START, 0, data);
    SumZero(TableCrc(data), Crc(data), Drift(START, 0, data));
  }

  // ---- faulty lookups

  // How many bytes of data hit one of the five entries
  function Faults(c: bv32, data: Bytes): nat
    decreases |data|
  {
    if data == [] then 0
    else
      var b := Wide(data[0]);
      (if Faulty(Index(c, b)) then 1 else 0) + Faults(Turn(c, b), data[1..])
  }

  lemma NoFault(x: bv32, s: bv32)
    requires !Faulty(x)
    ensures s ^ Fault(x) == s
  {
  }

  lemma ZeroDrift()
    ensures ShiftEight(0) == 0
  {
  }

  lemma FaultAlone(x: bv32)
    requires Faulty(x)
    ensures 0 ^ Fault(x) != 0
  {
  }

  // Without faulty lookups a drift neither appears nor goes away.
  lemma {:induction false} DriftStays(c: bv32, d: bv32, data: Bytes)
    requires Faults(c, data) == 0
    ensures Drift(c, d, data) == 0 <==> d == 0
    decreases |data|
  {
    hide Turn, Faulty, ShiftEight, Fault, Index, Wide;
    if data != [] {
      var b := Wide(data[0]);
      NoFault(Index(c, b), ShiftEight(d));
      ShiftEightZero(d);
      DriftStays(Turn(c, b), ShiftEight(d), data[1..]);
    }
  }

  lemma {:induction false} OneFaultDrifts(c: bv32, data: Bytes)
    requires Faults(c, data) == 1
    ensures Drift(c, 0, data) != 0
    decreases |data|
  {
    hide Turn, Faulty, ShiftEight, Fault, Index, Wide;
    var b := Wide(data[0]);
    var x := Index(c, b);
    ZeroDrift();
    if Faulty(x) {
      FaultAlone(x);
      DriftStays(Turn(c, b), 0 ^ Fault(x), data[1..]);
    } else {
      NoFault(x, 0);
      OneFaultDrifts(Turn(c, b), data[1..]);
    }
  }

  // The place of the first faulty lookup
  function NextFault(c: bv32, data: Bytes): (n: nat)
    requires Faults(c, data) > 0
    ensures n < |data|
    decreases |data|
  {
    var b := Wide(data[0]);
    if Faulty(Index(c, b)) then 0 else 1 + NextFault(Turn(c, b), data[1..])
  }

  // How many bytes the second faulty lookup is behind the first
  function Distance(c: bv32, data: Bytes): (n: nat)
    requires Faults(c, data) == 2
    ensures 0 < n < |data|
    decreases |data|
  {
    var b := Wide(data[0]);
    if Faulty(Index(c, b)) then 1 + NextFault(Turn(c, b), data[1..]) else Distance(Turn(c, b), data[1..])
  }

  lemma {:induction false} TurnsFirst(n: nat, v: bv32)
    ensures TurnsEight(n, ShiftEight(v)) == TurnsEight(n + 1, v)
  {
    hide ShiftEight;
    if n > 0 {
      TurnsFirst(n - 1, v);
    }
  }

  lemma FaultIs(x: bv32, s: bv32)
    requires Faulty(x)
    ensures s ^ Fault(x) == 0 <==> s == FAULT
    ensures 0 ^ Fault(x) == FAULT
  {
  }

  lemma OneTurn(v: bv32)
    ensures TurnsEight(1, v) == ShiftEight(v)
  {
    hide ShiftEight;
    assert TurnsEight(0, v) == v;
  }

  function Moved(d: bv32, x: bv32): bv32 {
    ShiftEight(d) ^ Fault(x)
  }

  lemma ByteUnfold(c: bv32, d: bv32, data: Bytes)
    requires data != []
    ensures var b := Wide(data[0]);
            var x := Index(c, b);
            && Drift(c, d, data) == Drift(Turn(c, b), Moved(d, x), data[1..])
            && Faults(c, data) == (if Faulty(x) then 1 else 0) + Faults(Turn(c, b), data[1..])
  {
    hide Turn, Faulty, ShiftEight, Fault, Index, Wide;
  }

  lemma NextUnfold(c: bv32, data: Bytes)
    requires Faults(c, data) > 0
    ensures data != []
    ensures var b := Wide(data[0]);
            if Faulty(Index(c, b)) then NextFault(c, data) == 0
            else Faults(Turn(c, b), data[1..]) > 0 && NextFault(c, data) == 1 + NextFault(Turn(c, b), data[1..])
  {
    hide Turn, Faulty, Index, Wide;
  }

  lemma FaultMoves(d: bv32, x: bv32)
    ensures Faulty(x) ==> (Moved(d, x) == 0 <==> ShiftEight(d) == FAULT)
    ensures !Faulty(x) ==> Moved(d, x) == ShiftEight(d)
  {
    hide ShiftEight;
  }

  // A drift is taken back by the next faulty lookup if it has become the fault by then.
  lemma {:induction false} SecondFault(c: bv32, d: bv32, data: Bytes)
    requires Faults(c, data) == 1
    ensures Drift(c, d, data) == 0 <==> TurnsEight(NextFault(c, data) + 1, d) == FAULT
    decreases |data|
  {
    hide *;
    NextUnfold(c, data);
    ByteUnfold(c, d, data);
    var b := Wide(data[0]);
    var x := Index(c, b);
    FaultMoves(d, x);
    if Faulty(x) {
      DriftStays(Turn(c, b), Moved(d, x), data[1..]);
      OneTurn(d);
    } else {
      SecondFault(Turn(c, b), ShiftEight(d), data[1..]);
      TurnsFirst(NextFault(Turn(c, b), data[1..]) + 1, d);
    }
  }

  lemma {:induction false} TwoFaultsDrift(c: bv32, data: Bytes)
    requires Faults(c, data) == 2
    ensures Drift(c, 0, data) == 0 <==> Distance(c, data) % ORDER == 0
    decreases |data|
  {
    hide Turn, Faulty, ShiftEight, Fault, Index, Wide, TurnsEight;
    var b := Wide(data[0]);
    var x := Index(c, b);
    ZeroDrift();
    if Faulty(x) {
      FaultIs(x, 0);
      SecondFault(Turn(c, b), FAULT, data[1..]);
      BackAfterBytes(Distance(c, data));
    } else {
      NoFault(x, 0);
      TwoFaultsDrift(Turn(c, b), data[1..]);
    }
  }

  /** The CRC is right for every byte string that hits none of the five entries, and
      wrong for every one that hits them once; when it hits them twice, the CRC is right
      if and only if the two lookups are a multiple of 2^32 - 1 bytes apart. */
  lemma CrcByFaults(data: Bytes)
    ensures Faults(START, data) == 0 ==> TableCrc(data) == Crc(data)
    ensures Faults(START, data) == 1 ==> TableCrc(data) != Crc(data)
    ensures Faults(START, data) == 2 ==> (TableCrc(data) == Crc(data) <==> Distance(START, data) % ORDER == 0)
    ensures Faults(START, data) == 2 && |data| < 0x1_0000_0000 ==> TableCrc(data) != Crc(data)
  {
    CrcAgrees(data);
    hide Faults, Drift, Distance;
    if Faults(START, data) == 0 {
      DriftStays(START, 0, data);
    }
    if Faults(START, data) == 1 {
      OneFaultDrifts(START, data);
    }
    if Faults(START, data) == 2 {
      TwoFaultsDrift(START, data);
      NotFarApart(Distance(START, data));
    }
  }

  lemma NotFarApart(n: nat)
    requires n > 0
    ensures n < ORDER ==> n % ORDER != 0
  {
  }

  /** So the table does not compute the CRC of the standard: one byte suffices. */
  lemma TableIsOff()
    ensures TableCrc([0xe4]) != Crc([0xe4])
  {
    assert Index(START, Wide(0xe4)) == 27;
    assert [0xe4 as bv8][1..] == [];
    assert Faults(START, [0xe4]) == 1;
    CrcByFaults([0xe4]);
  }

  // ---- a string with a CRC behind it

  function CrcBytes(c: bv32): (b: Bytes)
    ensures |b| == 4
  {
    [((c >> 24) & 0xff) as bv8, ((c >> 16) & 0xff) as bv8, ((c >> 8) & 0xff) as bv8, (c & 0xff) as bv8]
  }

  lemma {:induction false} DivideConcat(c: bv32, a: Bytes, b: Bytes)
    ensures Divide(c, a + b) == Divide(Divide(c, a), b)
    decreases |a|
  {
    hide ByteIn, Wide;
    if a == [] {
      assert a + b == b;
    } else {
      assert (a + b)[0] == a[0] && (a + b)[1..] == a[1..] + b;
      DivideConcat(ByteIn(c, Wide(a[0])), a[1..], b);
    }
  }

  // b is the top byte of v, and next the rest of it
  predicate TopByte(v: bv32, b: bv32, next: bv32) {
    b == (v >> 24) & 0xff && next == v << 8
  }

  lemma TopBytes(v: bv32)
    ensures var b := CrcBytes(v);
            && TopByte(v, Wide(b[0]), v << 8) && TopByte(v << 8, Wide(b[1]), v << 16)
            && TopByte(v << 16, Wide(b[2]), v << 24) && TopByte(v << 24, Wide(b[3]), 0)
  {
  }

  lemma DivideOne(c: bv32, b: bv8, rest: Bytes)
    ensures Divide(c, [b] + rest) == Divide(ByteIn(c, Wide(b)), rest)
  {
    hide ByteIn, Wide;
    assert ([b] + rest)[1..] == rest;
  }

  lemma DivideFour(c: bv32, b: Bytes)
    requires |b| == 4
    ensures Divide(c, b) == ByteIn(ByteIn(ByteIn(ByteIn(c, Wide(b[0])), Wide(b[1])), Wide(b[2])), Wide(b[3]))
  {
    assert b == [b[0]] + ([b[1]] + ([b[2]] + ([b[3]] + [])));
    var c1 := ByteIn(c, Wide(b[0]));
    var c2 := ByteIn(c1, Wide(b[1]));
    var c3 := ByteIn(c2, Wide(b[2]));
    hide ByteIn, Wide;
    assert Divide(ByteIn(c3, Wide(b[3])), []) == ByteIn(c3, Wide(b[3]));
    hide Divide;
    DivideOne(c, b[0], [b[1]] + ([b[2]] + ([b[3]] + [])));
    DivideOne(c1, b[1], [b[2]] + ([b[3]] + []));
    DivideOne(c2, b[2], [b[3]] + []);
    DivideOne(c3, b[3], []);
  }

  // One byte of v out of a remainder that is v but for d
  lemma OwnStep(c: bv32, v: bv32, d: bv32, b: bv32, next: bv32)
    requires Sum(c, v, d) && TopByte(v, b, next)
    ensures Sum(ByteIn(c, b), next, ShiftEight(d))
  {
    OwnByte(v);
    hide ByteIn, ShiftEight, Sum;
    ByteInLinear(c, v, d, b);
  }

  lemma OwnSteps(c: bv32, d: bv32, b: seq<bv32>, v: seq<bv32>)
    requires |b| == 4 && |v| == 5 && Sum(c, v[0], d)
    requires forall i | 0 <= i < 4 :: TopByte(v[i], b[i], v[i + 1])
    ensures Sum(ByteIn(ByteIn(ByteIn(ByteIn(c, b[0]), b[1]), b[2]), b[3]), v[4],
                ShiftEight(ShiftEight(ShiftEight(ShiftEight(d)))))
  {
    hide *;
    var c1 := ByteIn(c, b[0]);
    var c2 := ByteIn(c1, b[1]);
    var d1 := ShiftEight(d);
    var d2 := ShiftEight(d1);
    OwnStep(c, v[0], d, b[0], v[1]);
    OwnStep(c1, v[1], d1, b[1], v[2]);
    OwnStep(c2, v[2], d2, b[2], v[3]);
    OwnStep(ByteIn(c2, b[2]), v[3], ShiftEight(d2), b[3], v[4]);
  }

  // Four bytes of v turn a remainder c into a drift from 0.
  lemma OwnFour(c: bv32, v: bv32, d: bv32)
    requires Sum(c, v, d)
    ensures Sum(Divide(c, CrcBytes(v)), 0, ShiftEight(ShiftEight(ShiftEight(ShiftEight(d)))))
  {
    var b := CrcBytes(v);
    TopBytes(v);
    DivideFour(c, b);
    hide *;
    OwnSteps(c, d, [Wide(b[0]), Wide(b[1]), Wide(b[2]), Wide(b[3])], [v, v << 8, v << 16, v << 24, 0]);
  }

  lemma SumOf(c: bv32, v: bv32)
    ensures Sum(c, v, c ^ v) && (c ^ v == 0 <==> c == v)
  {
  }

  /** A receiver's check: the CRC over a string and four more bytes is zero
      exactly when those bytes are the string's CRC, most significant first. */
  lemma CheckIsZero(data: Bytes, v: bv32)
    ensures Crc(data + CrcBytes(v)) == 0 <==> v == Crc(data)
  {
    hide *;
    CrcIs(data + CrcBytes(v));
    CrcIs(data);
    DivideConcat(START, data, CrcBytes(v));
    var c := Crc(data);
    var d := c ^ v;
    SumOf(c, v);
    OwnFour(c, v, d);
    ShiftEightZero(d);
    ShiftEightZero(ShiftEight(d));
    ShiftEightZero(ShiftEight(ShiftEight(d)));
    ShiftEightZero(ShiftEight(ShiftEight(ShiftEight(d))));
    SumFromZero(Crc(data + CrcBytes(v)), ShiftEight(ShiftEight(ShiftEight(ShiftEight(d)))));
  }

  lemma CrcIs(data: Bytes)
    ensures Crc(data) == Divide(START, data)
  {
  }

  lemma SumFromZero(z: bv32, d: bv32)
    requires Sum(z, 0, d)
    ensures z == 0 <==> d == 0
  {
  }
}
