/** Packetising a PES packet: the packets written for a buffer of any size, and
    what demultiplexing them gives. */
module TsPes {
  import opened Basics
  import opened TsPacket

  function Min(a: nat, b: nat): nat {
    if a < b then a else b
  }

  // The packets for `data`, at most n of them; only the first carries x
  function Packets(pid: bv16, first: bool, cc: bv8, x: Extra, data: Bytes, n: nat): (ps: seq<Bytes>)
    ensures |ps| <= n && forall i | 0 <= i < |ps| :: |ps[i]| == PACKET
    decreases n
  {
    if data == [] || n == 0 then []
    else
      var take := Min(|data|, Room(x));
      [Packet(pid, first, cc, x, data[..take])]
      + Packets(pid, false, NextCounter(cc), NOTHING, data[take..], n - 1)
  }

  function NextCounter(cc: bv8): bv8 {
    (cc + 1) & 0x0f
  }

  // The counter after k more packets
  function Counter(cc: bv8, k: nat): bv8
    decreases k
  {
    if k == 0 then cc else Counter(NextCounter(cc), k - 1)
  }

  function Flat(ps: seq<Bytes>): Bytes {
    if ps == [] then [] else ps[0] + Flat(ps[1..])
  }

  // ---- demultiplexing

  function Payloads(ps: seq<Bytes>): Bytes
    requires forall i | 0 <= i < |ps| :: |ps[i]| == PACKET
  {
    if ps == [] then [] else PayloadOf(ps[0]) + Payloads(ps[1..])
  }

  // How much data n packets hold
  function Capacity(x: Extra, n: nat): nat {
    if n == 0 then 0 else Room(x) + 184 * (n - 1)
  }

  // A packet with this PID, start indicator and counter
  predicate HeadedBy(p: Bytes, pid: bv16, first: bool, cc: bv8)
    requires |p| == PACKET
  {
    p[0] == 0x47 && PidOf(p) == pid && (StartsUnit(p) <==> first) && CounterOf(p) == cc & 0x0f
  }

  // One PID, one unit that the first packet starts, and counters that go up
  predicate WellMuxed(ps: seq<Bytes>, pid: bv16, first: bool, cc: bv8)
    requires forall i | 0 <= i < |ps| :: |ps[i]| == PACKET
  {
    forall i | 0 <= i < |ps| :: HeadedBy(ps[i], pid, first && i == 0, Counter(cc, i))
  }

  lemma CapacityStep(x: Extra, data: nat, n: nat)
    requires n > 0 && data > 0
    ensures var take := Min(data, Room(x));
            Min(data, Capacity(x, n)) == take + Min(data - take, Capacity(NOTHING, n - 1))
  {
    hide Fields;
    assert Room(NOTHING) == 184;
    if data <= Room(x) {
    } else if n == 1 {
    } else {
      assert Capacity(x, n) == Room(x) + Capacity(NOTHING, n - 1);
    }
  }

  lemma MinLow(a: nat, b: nat)
    ensures Min(a, b) <= a
  {
  }

  lemma TakeMore(data: Bytes, take: nat, k: nat)
    requires take + k <= |data|
    ensures data[..take] + data[take..][..k] == data[..take + k]
  {
  }

  lemma PacketsAre(pid: bv16, first: bool, cc: bv8, x: Extra, data: Bytes, n: nat)
    ensures Min(|data|, Room(x)) <= |data| && Min(|data|, Room(x)) <= Room(x) && (data != [] ==> Min(|data|, Room(x)) > 0)
    ensures data == [] || n == 0 ==>
              Packets(pid, first, cc, x, data, n) == [] && Payloads([]) == [] && Min(|data|, Capacity(x, n)) == 0
    ensures data != [] && n > 0 ==>
              var take := Min(|data|, Room(x));
              Packets(pid, first, cc, x, data, n)
              == [Packet(pid, first, cc, x, data[..take])]
                 + Packets(pid, false, NextCounter(cc), NOTHING, data[take..], n - 1)
  {
    hide Packet, Room, PayloadOf;
  }

  lemma {:induction false} MuxPayload(pid: bv16, first: bool, cc: bv8, x: Extra, data: Bytes, n: nat)
    requires pid < 0x2000
    ensures Payloads(Packets(pid, first, cc, x, data, n)) == data[..Min(|data|, Capacity(x, n))]
    decreases n
  {
    hide *;
    PacketsAre(pid, first, cc, x, data, n);
    if data != [] && n > 0 {
      var take := Min(|data|, Room(x));
      var p := Packet(pid, first, cc, x, data[..take]);
      PacketBack(pid, first, cc, x, data[..take]);
      MuxPayload(pid, false, NextCounter(cc), NOTHING, data[take..], n - 1);
      CapacityStep(x, |data|, n);
      MinLow(|data| - take, Capacity(NOTHING, n - 1));
      TakeMore(data, take, Min(|data| - take, Capacity(NOTHING, n - 1)));
      var rest := Packets(pid, false, NextCounter(cc), NOTHING, data[take..], n - 1);
      PayloadsCons(p, rest);
    }
  }

  lemma PayloadsCons(p: Bytes, rest: seq<Bytes>)
    requires |p| == PACKET && forall i | 0 <= i < |rest| :: |rest[i]| == PACKET
    ensures Payloads([p] + rest) == PayloadOf(p) + Payloads(rest)
  {
    assert ([p] + rest)[1..] == rest;
  }

  lemma NoneMuxed(pid: bv16, first: bool, cc: bv8)
    ensures WellMuxed([], pid, first, cc)
  {
  }

  lemma {:induction false} MuxHeads(pid: bv16, first: bool, cc: bv8, x: Extra, data: Bytes, n: nat)
    requires pid < 0x2000
    ensures WellMuxed(Packets(pid, first, cc, x, data, n), pid, first, cc)
    decreases n
  {
    hide *;
    PacketsAre(pid, first, cc, x, data, n);
    NoneMuxed(pid, first, cc);
    if data != [] && n > 0 {
      var take := Min(|data|, Room(x));
      var p := Packet(pid, first, cc, x, data[..take]);
      var rest := Packets(pid, false, NextCounter(cc), NOTHING, data[take..], n - 1);
      PacketBack(pid, first, cc, x, data[..take]);
      MuxHeads(pid, false, NextCounter(cc), NOTHING, data[take..], n - 1);
      HeadsCons(p, rest, pid, first, cc);
    }
  }

  lemma AtFirst(p: Bytes, pid: bv16, first: bool, cc: bv8)
    requires |p| == PACKET
    requires p[0] == 0x47 && PidOf(p) == pid && (StartsUnit(p) <==> first) && CounterOf(p) == cc & 0x0f
    ensures HeadedBy(p, pid, first, cc)
  {
    hide PidOf, StartsUnit, CounterOf;
  }

  lemma CounterUnfold(cc: bv8, i: nat)
    ensures Counter(cc, 0) == cc && (i > 0 ==> Counter(cc, i) == Counter(NextCounter(cc), i - 1))
  {
    hide NextCounter;
  }

  lemma HeadsCons(p: Bytes, rest: seq<Bytes>, pid: bv16, first: bool, cc: bv8)
    requires |p| == PACKET && forall i | 0 <= i < |rest| :: |rest[i]| == PACKET
    requires p[0] == 0x47 && PidOf(p) == pid && (StartsUnit(p) <==> first) && CounterOf(p) == cc & 0x0f
    requires WellMuxed(rest, pid, false, NextCounter(cc))
    ensures WellMuxed([p] + rest, pid, first, cc)
  {
    hide PidOf, StartsUnit, CounterOf, NextCounter, Counter, HeadedBy;
    var ps := [p] + rest;
    CounterUnfold(cc, 0);
    AtFirst(p, pid, first, cc);
    forall i | 0 <= i < |ps|
      ensures HeadedBy(ps[i], pid, first && i == 0, Counter(cc, i))
    {
      CounterUnfold(cc, i);
      if i > 0 {
        assert ps[i] == rest[i - 1];
        assert HeadedBy(rest[i - 1], pid, false, Counter(NextCounter(cc), i - 1));
      }
    }
  }

  lemma {:induction false} MuxCount(pid: bv16, first: bool, cc: bv8, x: Extra, data: Bytes, n: nat)
    ensures |Packets(pid, first, cc, x, data, n)| == n
            || (|data| <= Capacity(x, n) && (data == [] ==> Packets(pid, first, cc, x, data, n) == []))
    decreases n
  {
    if data != [] && n > 0 {
      var take := Min(|data|, Room(x));
      hide Packet, Room, Fields;
      MuxCount(pid, false, NextCounter(cc), NOTHING, data[take..], n - 1);
      CapacityStep(x, |data|, n);
    }
  }

  /** Mux, then demux. Parsing the emitted packets through their adaptation
      fields and joining the payloads gives the data back, whole when the
      buffer holds enough packets and otherwise a prefix made of exactly as many
      packets as fit. Every packet has the PID, the first alone starts the unit,
      and the counters go up by one modulo 16. */
  lemma MuxThenDemux(pid: bv16, cc: bv8, x: Extra, data: Bytes, n: nat)
    requires pid < 0x2000
    ensures var ps := Packets(pid, true, cc, x, data, n);
            && Payloads(ps) == data[..Min(|data|, Capacity(x, n))]
            && (|data| > Capacity(x, n) ==> |ps| == n && |Payloads(ps)| < |data|)
            && (|data| <= Capacity(x, n) ==> Payloads(ps) == data)
            && WellMuxed(ps, pid, true, cc)
  {
    hide Packets, Payloads, Capacity, WellMuxed;
    MuxPayload(pid, true, cc, x, data, n);
    MuxHeads(pid, true, cc, x, data, n);
    MuxCount(pid, true, cc, x, data, n);
  }

  // The first packet carries the clock reference and the random access flag.
  lemma FirstCarries(pid: bv16, cc: bv8, x: Extra, data: Bytes, n: nat)
    requires pid < 0x2000 && data != [] && n > 0 && x != NOTHING
    ensures var p := Packets(pid, true, cc, x, data, n)[0];
            && (RandomAccess(p) <==> x.random)
            && ClockOf(p) == if x.pcr.Some? then Some(x.pcr.value & 0x1_ffff_ffff) else None
  {
    ExtrasBack(pid, true, cc, x, data[..Min(|data|, Room(x))]);
    hide Packet, RandomAccess, ClockOf;
  }
}
