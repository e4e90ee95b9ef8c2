/** The media clock: a ring of per-second minima, its median as target, and the
    filtered slew that follows it. Times are in microseconds; integers are
    unbounded here. */
module MediaClock {
  import opened ClockMedian

  const SLOTS: nat := 16
  const SECOND: nat := 1_000_000
  const SLEW_MAX: int := 1000
  const UNSEEN: int := 0x7FFF_FFFF_FFFF_FFFF

  // C's division, which truncates toward zero
  function TruncDiv(a: int, b: int): int
    requires b > 0
  {
    if a >= 0 then a / b else -((-a) / b)
  }

  // ---- the clock as a value

  datatype State = State(mins: seq<int>, start: int, offset: int, ewma: int, bucket: nat, ready: bool)

  predicate WellFormed(s: State) {
    |s.mins| == SLOTS && s.bucket < SLOTS
  }

  function Cleared(): (r: seq<int>)
    ensures |r| == SLOTS && forall i | 0 <= i < SLOTS :: r[i] == UNSEEN
  {
    seq(SLOTS, _ => UNSEEN)
  }

  function Initial(): (s: State)
    ensures WellFormed(s)
  {
    State(Cleared(), 0, 0, 0, 0, false)
  }

  // On to the next one-second bucket
  function NextSecond(s: State): (r: State)
    requires WellFormed(s)
    ensures WellFormed(r)
  {
    var b := (s.bucket + 1) % SLOTS;
    s.(bucket := b, mins := s.mins[b := UNSEEN], start := s.start + SECOND)
  }

  // The loop of advance_window
  function Roll(s: State, now: int): (r: State)
    requires WellFormed(s)
    ensures WellFormed(r)
    decreases now - s.start
  {
    if now - s.start < SECOND then s else Roll(NextSecond(s), now)
  }

  predicate Resets(s: State, now: int) {
    now - s.start < 0 || now - s.start >= SECOND * SLOTS
  }

  // advance_window
  function Advance(s: State, now: int): (r: State)
    requires WellFormed(s)
    ensures WellFormed(r)
  {
    if Resets(s, now) then s.(mins := Cleared(), bucket := 0, start := now) else Roll(s, now)
  }

  function Record(s: State, sample: int): (r: State)
    requires WellFormed(s)
    ensures WellFormed(r)
  {
    if sample < s.mins[s.bucket] then s.(mins := s.mins[s.bucket := sample]) else s
  }

  // The minima of the first n slots that have one
  function Populated(mins: seq<int>, n: nat): seq<int>
    requires n <= |mins|
  {
    if n == 0 then []
    else Populated(mins, n - 1) + (if mins[n - 1] == UNSEEN then [] else [mins[n - 1]])
  }

  function Target(mins: seq<int>): int {
    var p := Populated(mins, |mins|);
    if p == [] then UNSEEN else Median(p)
  }

  function Clamp(slew: int): int {
    if slew > SLEW_MAX then SLEW_MAX else if slew < -SLEW_MAX then -SLEW_MAX else slew
  }

  // The proportional filter
  function Follow(s: State, target: int): (r: State)
    requires WellFormed(s)
    ensures WellFormed(r)
  {
    if target == UNSEEN then s
    else
      var ewma := s.ewma + TruncDiv(target - s.offset - s.ewma, 16);
      s.(ewma := ewma, offset := s.offset + Clamp(TruncDiv(ewma, 16)))
  }

  // rss_media_clock_map: the new clock; its answer is the timestamp plus the offset
  function Step(s: State, media: int, now: int): (r: State)
    requires WellFormed(s)
    ensures WellFormed(r)
  {
    if !s.ready then
      s.(start := now, mins := s.mins[0 := now - media], offset := now - media, ready := true)
    else
      var seen := Record(Advance(s, now), now - media);
      Follow(seen, Target(seen.mins))
  }

  // ---- whole runs

  datatype Sample = Sample(media: int, now: int)

  function Late(x: Sample): int {
    x.now - x.media
  }

  function Run(h: seq<Sample>): (s: State)
    ensures WellFormed(s)
  {
    if h == [] then Initial()
    else
      var last := h[|h| - 1];
      Step(Run(h[..|h| - 1]), last.media, last.now)
  }

  function Mapped(h: seq<Sample>): int
    requires h != []
  {
    h[|h| - 1].media + Run(h).offset
  }

  /** The offset moves by at most a millisecond a frame, so the mapped times
      follow the producer's to within that. */
  lemma MappedFollows(h: seq<Sample>, x: Sample)
    requires h != []
    ensures -SLEW_MAX <= (Mapped(h + [x]) - Mapped(h)) - (x.media - h[|h| - 1].media) <= SLEW_MAX
  {
    assert (h + [x])[..|h|] == h;
    EverReady(h);
    OffsetOnlyFollows(Run(h), x.now);
  }

  lemma EverReady(h: seq<Sample>)
    ensures Run(h).ready <==> h != []
  {
    if h != [] {
      var s, last := Run(h[..|h| - 1]), h[|h| - 1];
      OffsetOnlyFollows(s, last.now);
    }
  }

  lemma OffsetOnlyFollows(s: State, now: int)
    requires WellFormed(s)
    ensures var a := Advance(s, now);
            a.offset == s.offset && a.ewma == s.ewma && a.ready == s.ready
  {
    if !Resets(s, now) {
      RollKeeps(s, now);
    }
  }

  lemma {:induction false} RollKeeps(s: State, now: int)
    requires WellFormed(s)
    ensures var r := Roll(s, now); r.offset == s.offset && r.ewma == s.ewma && r.ready == s.ready
    decreases now - s.start
  {
    if now - s.start >= SECOND {
      RollKeeps(NextSecond(s), now);
    }
  }

  // ---- the clock as an object

  class Clock {
    const mins: array<int>
    var start: int
    var offset: int
    var ewma: int
    var bucket: nat
    var ready: bool

    ghost predicate Valid()
      reads this
    {
      mins.Length == SLOTS && bucket < SLOTS
    }

    ghost function Abs(): State
      reads this, mins
    {
      State(mins[..], start, offset, ewma, bucket, ready)
    }

    // rss_media_clock_init
    constructor ()
      ensures Valid() && fresh(mins) && Abs() == Initial()
    {
      mins := new int[SLOTS];
      start, offset, ewma, bucket, ready := 0, 0, 0, 0, false;
      new;
      ClearBuckets();
    }

    method ClearBuckets()
      requires Valid()
      modifies mins
      ensures mins[..] == Cleared()
    {
      for i := 0 to SLOTS
        invariant forall j | 0 <= j < i :: mins[j] == UNSEEN
      {
        mins[i] := UNSEEN;
      }
    }

    method AdvanceWindow(now: int)
      requires Valid()
      modifies this, mins
      ensures Valid() && Abs() == Advance(old(Abs()), now)
    {
      var elapsed := now - start;
      if elapsed < 0 || elapsed >= SECOND * SLOTS {
        ClearBuckets();
        bucket := 0;
        start := now;
        return;
      }
      while elapsed >= SECOND
        invariant Valid() && elapsed == now - start
        invariant Roll(Abs(), now) == Roll(old(Abs()), now)
        decreases elapsed
      {
        bucket := (bucket + 1) % SLOTS;
        mins[bucket] := UNSEEN;
        start := start + SECOND;
        elapsed := elapsed - SECOND;
      }
    }

    // The insertion sort of the populated minima, and its middle
    method Middle() returns (target: int)
      requires Valid()
      ensures target == Target(mins[..])
    {
      hide Sorted;
      ghost var m := mins[..];
      var sorted := new int[SLOTS];
      var n := 0;
      for i := 0 to SLOTS
        invariant n <= i && n == |Populated(m, i)| && sorted[..n] == Sorted(Populated(m, i))
        invariant mins[..] == m
      {
        var v := mins[i];
        assert v == m[i] && Populated(m, i) + [] == Populated(m, i);
        if v != UNSEEN {
          SortedPush(Populated(m, i), v);
          InsertInto(sorted, n, v);
          n := n + 1;
          assert sorted[..n] == Insert(Sorted(Populated(m, i)), v);
        }
      }
      target := if n > 0 then sorted[n / 2] else UNSEEN;
    }

    // rss_media_clock_map
    method Map(media: int, now: int) returns (mapped: int)
      requires Valid()
      modifies this, mins
      ensures Valid() && Abs() == Step(old(Abs()), media, now)
      ensures mapped == media + Abs().offset
    {
      hide Advance, Target, TruncDiv;
      var sample := now - media;
      if !ready {
        start := now;
        mins[0] := sample;
        offset := sample;
        ready := true;
        return media + offset;
      }
      AdvanceWindow(now);
      ghost var advanced := Abs();
      if sample < mins[bucket] {
        mins[bucket] := sample;
      }
      assert Abs() == Record(advanced, sample);
      var target := Middle();
      if target != UNSEEN {
        var err := target - offset;
        ewma := ewma + TruncDiv(err - ewma, 16);
        var slew := TruncDiv(ewma, 16);
        if slew > SLEW_MAX {
          slew := SLEW_MAX;
        } else if slew < -SLEW_MAX {
          slew := -SLEW_MAX;
        }
        offset := offset + slew;
      }
      mapped := media + offset;
    }
  }

  lemma SortedPush(s: seq<int>, v: int)
    ensures Sorted(s + [v]) == Insert(Sorted(s), v)
  {
    assert (s + [v])[..|s|] == s;
  }
}
