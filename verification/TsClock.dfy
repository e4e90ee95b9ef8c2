/** The clock references of whole runs: how far they stay behind the decoding
    times, and when they only go up. */
module TsClock {
  import opened Basics
  import opened TsPacket
  import opened TsPes
  import opened TsMux

  // The clock reference and the decoding time of a video write
  datatype Tick = Tick(pcr: Ticks64, dts: Ticks64)

  predicate Writes(c: Call) {
    c.Video? && c.data != []
  }

  function Ticks(m: Mux, calls: seq<Call>): seq<Tick>
    decreases |calls|
  {
    if calls == [] then []
    else
      (if Writes(calls[0]) then [Tick(NextPcr(m, calls[0].dts), calls[0].dts)] else [])
      + Ticks(Next(m, calls[0]), calls[1..])
  }

  // ---- bounds, when decoding times go up

  // Every video write has a later decoding time than the last one; `any` is false before the first.
  predicate Rising(calls: seq<Call>, any: bool, last: Ticks64)
    decreases |calls|
  {
    calls != [] ==>
      if Writes(calls[0]) then (any ==> calls[0].dts > last) && Rising(calls[1..], true, calls[0].dts)
      else Rising(calls[1..], any, last)
  }

  // Not more than 3000 ticks behind the decoding time, and not ahead of it
  predicate Behind(t: Tick) {
    t.pcr <= t.dts && (t.dts > 3000 ==> t.dts - 3000 <= t.pcr)
  }

  // What the guard has seen so far
  predicate Seen(m: Mux, any: bool, last: Ticks64) {
    if any then m.lastPcr <= last else m.patCounter == 0
  }

  lemma NextBehind(m: Mux, any: bool, last: Ticks64, dts: Ticks64)
    requires Seen(m, any, last) && (any ==> dts > last)
    ensures Behind(Tick(NextPcr(m, dts), dts))
  {
  }

  lemma CallSeen(m: Mux, any: bool, last: Ticks64, c: Call)
    requires Seen(m, any, last) && (Writes(c) ==> Behind(Tick(NextPcr(m, c.dts), c.dts)))
    ensures if Writes(c) then Seen(Next(m, c), true, c.dts) else Seen(Next(m, c), any, last)
  {
    hide Sent, Counter, NextPcr, Word;
  }

  /** With decoding times that go up, whatever else is written in between, every
      clock reference satisfies dts - 3000 <= PCR <= dts. */
  lemma {:induction false} ClockBehind(m: Mux, calls: seq<Call>, any: bool, last: Ticks64, i: nat)
    requires Seen(m, any, last) && Rising(calls, any, last) && i < |Ticks(m, calls)|
    ensures Behind(Ticks(m, calls)[i])
    decreases |calls|
  {
    hide Behind, Seen, NextPcr, Next;
    var c := calls[0];
    if Writes(c) {
      NextBehind(m, any, last, c.dts);
      CallSeen(m, any, last, c);
      if i > 0 {
        ClockBehind(Next(m, c), calls[1..], true, c.dts, i - 1);
        assert Ticks(m, calls)[i] == Ticks(Next(m, c), calls[1..])[i - 1];
      }
    } else {
      CallSeen(m, any, last, c);
      ClockBehind(Next(m, c), calls[1..], any, last, i);
      assert Ticks(m, calls) == Ticks(Next(m, c), calls[1..]);
    }
  }

  /** In particular from the start of a multiplexer. */
  lemma RunBehind(video: bv8, audio: bv8, channels: bv8, calls: seq<Call>, i: nat)
    requires Rising(calls, false, 0) && i < |Ticks(Start(video, audio, channels), calls)|
    ensures Behind(Ticks(Start(video, audio, channels), calls)[i])
  {
    hide Rising, Ticks, Behind;
    ClockBehind(Start(video, audio, channels), calls, false, 0, i);
  }

  // ---- strict increase between tables

  function Videos(calls: seq<Call>): nat {
    if calls == [] then 0 else (if Writes(calls[0]) then 1 else 0) + Videos(calls[1..])
  }

  // The last value the guard can still raise
  const CLOCK_END: Ticks64 := 0xffff_ffff_ffff_ffff

  lemma GuardRaises(m: Mux, dts: Ticks64)
    requires m.patCounter > 0 && m.lastPcr != CLOCK_END
    ensures NextPcr(m, dts) > m.lastPcr
  {
  }

  lemma VideoCounts(m: Mux, c: Call)
    requires Writes(c) && m.patCounter + 1 < 0x1_0000_0000
    ensures Next(m, c).patCounter == m.patCounter + 1 && Next(m, c).lastPcr == NextPcr(m, c.dts)
  {
    hide Sent, Counter, NextPcr, Word;
  }

  lemma OtherCounts(m: Mux, c: Call)
    requires !Writes(c) && !c.Tables?
    ensures Next(m, c).patCounter == m.patCounter && Next(m, c).lastPcr == m.lastPcr
  {
    hide Sent, Counter, NextPcr, Word;
  }

  // No clock reference of the stretch is the last value.
  predicate BelowEnd(ts: seq<Tick>) {
    forall k | 0 <= k < |ts| :: ts[k].pcr != CLOCK_END
  }

  predicate NoTables(calls: seq<Call>) {
    forall k | 0 <= k < |calls| :: !calls[k].Tables?
  }

  lemma TicksOf(m: Mux, calls: seq<Call>)
    requires calls != []
    ensures var rest := Ticks(Next(m, calls[0]), calls[1..]);
            && (Writes(calls[0]) ==> Ticks(m, calls) == [Tick(NextPcr(m, calls[0].dts), calls[0].dts)] + rest)
            && (!Writes(calls[0]) ==> Ticks(m, calls) == rest)
            && Videos(calls) == (if Writes(calls[0]) then 1 else 0) + Videos(calls[1..])
  {
    hide NextPcr, Next;
  }

  lemma SomeCall(m: Mux, calls: seq<Call>)
    requires |Ticks(m, calls)| > 0
    ensures calls != [] && (Writes(calls[0]) ==> calls[0].Video?)
  {
  }

  lemma EndOfRest(t: Tick, rest: seq<Tick>)
    requires BelowEnd([t] + rest)
    ensures BelowEnd(rest) && t.pcr != CLOCK_END
  {
    var ts := [t] + rest;
    assert ts[0] == t;
    assert forall k | 0 <= k < |rest| :: rest[k] == ts[k + 1];
  }

  lemma NoTablesRest(calls: seq<Call>)
    requires NoTables(calls) && calls != []
    ensures NoTables(calls[1..]) && !calls[0].Tables?
  {
  }

  // All ticks of a stretch without tables lie above a clock already sent.
  lemma {:induction false} TicksAbove(m: Mux, calls: seq<Call>, i: nat)
    requires 0 < m.patCounter && m.patCounter + Videos(calls) < 0x1_0000_0000
    requires m.lastPcr != CLOCK_END && BelowEnd(Ticks(m, calls)) && NoTables(calls) && i < |Ticks(m, calls)|
    ensures Ticks(m, calls)[i].pcr > m.lastPcr
    decreases |calls|
  {
    hide *;
    SomeCall(m, calls);
    var c := calls[0];
    TicksOf(m, calls);
    NoTablesRest(calls);
    if Writes(c) {
      VideoCounts(m, c);
      GuardRaises(m, c.dts);
      EndOfRest(Tick(NextPcr(m, c.dts), c.dts), Ticks(Next(m, c), calls[1..]));
      if i > 0 {
        TicksAbove(Next(m, c), calls[1..], i - 1);
      }
    } else {
      OtherCounts(m, c);
      TicksAbove(Next(m, c), calls[1..], i);
    }
  }

  lemma HeadBelow(t: Tick, rest: seq<Tick>, floor: Ticks64, j: nat)
    requires 0 < j <= |rest| && t.pcr == floor && rest[j - 1].pcr > floor
    ensures ([t] + rest)[0].pcr < ([t] + rest)[j].pcr
  {
  }

  lemma RestBelow(t: Tick, rest: seq<Tick>, i: nat, j: nat)
    requires 0 < i < j <= |rest| && rest[i - 1].pcr < rest[j - 1].pcr
    ensures ([t] + rest)[i].pcr < ([t] + rest)[j].pcr
  {
  }

  /** Between two table writes the clock references only go up, whatever the
      decoding times do, for as long as the 32-bit write counter does not wrap
      and the clock has not reached its last value. */
  lemma {:induction false} ClockGoesUp(m: Mux, calls: seq<Call>, i: nat, j: nat)
    requires m.patCounter + Videos(calls) < 0x1_0000_0000
    requires BelowEnd(Ticks(m, calls)) && NoTables(calls) && i < j < |Ticks(m, calls)|
    ensures Ticks(m, calls)[i].pcr < Ticks(m, calls)[j].pcr
    decreases |calls|
  {
    hide *;
    SomeCall(m, calls);
    var c := calls[0];
    TicksOf(m, calls);
    NoTablesRest(calls);
    if Writes(c) {
      var t, rest := Tick(NextPcr(m, c.dts), c.dts), Ticks(Next(m, c), calls[1..]);
      VideoCounts(m, c);
      EndOfRest(t, rest);
      if i == 0 {
        TicksAbove(Next(m, c), calls[1..], j - 1);
        HeadBelow(t, rest, Next(m, c).lastPcr, j);
      } else {
        ClockGoesUp(Next(m, c), calls[1..], i - 1, j - 1);
        RestBelow(t, rest, i, j);
      }
    } else {
      OtherCounts(m, c);
      ClockGoesUp(Next(m, c), calls[1..], i, j);
    }
  }

  // ---- the clock is in the stream

  /** The first packet of every video write that fits one carries its clock
      reference, modulo 2^33, and is marked for random access exactly when the
      frame is an IDR. */
  lemma ClockIsSent(m: Mux, c: Call)
    requires Writes(c) && c.n > 0
    ensures Sent(m, c) != []
    ensures var p := Sent(m, c)[0];
            ClockOf(p) == Some(Low33(Word(NextPcr(m, c.dts)))) && (RandomAccess(p) <==> c.idr)
  {
    hide Packet, ClockOf, RandomAccess, NextPcr, VideoHeader, Word;
    FirstCarries(PID_VIDEO, m.ccVideo, VideoExtra(m, c.dts, c.idr),
                 VideoHeader(Word(c.pts), Word(c.dts)) + c.data, c.n);
  }
}
