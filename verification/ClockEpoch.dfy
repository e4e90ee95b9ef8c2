/** Two runs of the clock whose producer timestamps differ by a constant. */
module ClockEpoch {
  import opened ClockMedian
  import opened MediaClock
  import opened ClockHistory

  function ShiftedSample(x: Sample, c: int): Sample {
    x.(media := x.media + c)
  }

  function Shifted(h: seq<Sample>, c: int): (r: seq<Sample>)
    ensures |r| == |h|
  {
    seq(|h|, i requires 0 <= i < |h| => ShiftedSample(h[i], c))
  }

  function ShiftMin(m: int, c: int): int {
    if m == UNSEEN then UNSEEN else m - c
  }

  // The second clock tracks an offset that is smaller by c.
  predicate Apart(a: State, b: State, c: int) {
    && WellFormed(a) && WellFormed(b)
    && (forall i | 0 <= i < SLOTS :: b.mins[i] == ShiftMin(a.mins[i], c) && (a.mins[i] != UNSEEN ==> b.mins[i] < UNSEEN))
    && (forall i | 0 <= i < SLOTS :: a.mins[i] <= UNSEEN)
    && b.offset == a.offset - c
    && b.ewma == a.ewma && b.start == a.start && b.bucket == a.bucket && b.ready == a.ready
  }

  lemma {:induction false} RollApart(a: State, b: State, c: int, now: int)
    requires Apart(a, b, c)
    ensures Apart(Roll(a, now), Roll(b, now), c)
    decreases now - a.start
  {
    if now - a.start >= SECOND {
      RollApart(NextSecond(a), NextSecond(b), c, now);
    }
  }

  lemma AdvanceApart(a: State, b: State, c: int, now: int)
    requires Apart(a, b, c)
    ensures Apart(Advance(a, now), Advance(b, now), c)
  {
    hide Roll;
    if !Resets(a, now) {
      RollApart(a, b, c, now);
    }
  }

  lemma RecordApart(a: State, b: State, c: int, sample: int)
    requires Apart(a, b, c) && sample < UNSEEN && sample - c < UNSEEN
    ensures Apart(Record(a, sample), Record(b, sample - c), c)
  {
    assert b.mins[a.bucket] == ShiftMin(a.mins[a.bucket], c);
  }

  lemma {:induction false} PopulatedApart(a: seq<int>, b: seq<int>, n: nat, c: int)
    requires n <= |a| == |b|
    requires forall i | 0 <= i < |a| :: b[i] == ShiftMin(a[i], c) && (a[i] != UNSEEN ==> b[i] < UNSEEN)
    ensures Populated(b, n) == Plus(Populated(a, n), -c)
  {
    if n > 0 {
      PopulatedApart(a, b, n - 1, c);
    }
  }

  lemma {:induction false} PopulatedSeen(mins: seq<int>, n: nat)
    requires n <= |mins|
    ensures forall i | 0 <= i < |Populated(mins, n)| :: Populated(mins, n)[i] != UNSEEN
  {
    if n > 0 {
      PopulatedSeen(mins, n - 1);
    }
  }

  // The target is the sentinel only when no second has a sample.
  lemma TargetSeen(mins: seq<int>)
    requires |mins| == SLOTS
    ensures Target(mins) == UNSEEN <==> Populated(mins, SLOTS) == []
  {
    PopulatedSeen(mins, SLOTS);
    if Populated(mins, SLOTS) != [] {
      MedianIn(Populated(mins, SLOTS));
    }
  }

  lemma ReadyKept(a: State, x: Sample)
    requires WellFormed(a) && a.ready
    ensures var s := Record(Advance(a, x.now), Late(x));
            Step(a, x.media, x.now) == Follow(s, Target(s.mins))
  {
    hide Target, Follow, Record, Advance;
  }

  lemma FollowApart(a: State, b: State, c: int, s: int, t: int)
    requires Apart(a, b, c) && (s == UNSEEN <==> t == UNSEEN) && (s != UNSEEN ==> t == s - c)
    ensures Apart(Follow(a, s), Follow(b, t), c)
  {
    hide TruncDiv, Clamp;
  }

  lemma StepApart(a: State, b: State, c: int, x: Sample)
    requires Apart(a, b, c) && a.ready && Late(x) < UNSEEN && Late(x) - c < UNSEEN
    ensures Apart(Step(a, x.media, x.now), Step(b, x.media + c, x.now), c)
  {
    hide *;
    var y := ShiftedSample(x, c);
    ApartReady(a, b, c);
    ShiftedLate(x, c);
    ReadyKept(a, x);
    ReadyKept(b, y);
    var a1, b1 := Advance(a, x.now), Advance(b, x.now);
    var a2, b2 := Record(a1, Late(x)), Record(b1, Late(x) - c);
    AdvanceApart(a, b, c, x.now);
    RecordApart(a1, b1, c, Late(x));
    TargetsApart(a2, b2, c);
    FollowApart(a2, b2, c, Target(a2.mins), Target(b2.mins));
  }

  lemma TargetIs(mins: seq<int>, p: seq<int>)
    requires |mins| == SLOTS && p == Populated(mins, SLOTS)
    ensures Target(mins) == if p == [] then UNSEEN else Median(p)
  {
    hide Populated, Median;
  }

  lemma TargetsApart(a: State, b: State, c: int)
    requires Apart(a, b, c)
    ensures Target(a.mins) == UNSEEN <==> Target(b.mins) == UNSEEN
    ensures Target(a.mins) != UNSEEN ==> Target(b.mins) == Target(a.mins) - c
  {
    hide *;
    MinsApart(a, b, c);
    var p, q := Populated(a.mins, SLOTS), Populated(b.mins, SLOTS);
    PopulatedApart(a.mins, b.mins, SLOTS, c);
    TargetSeen(a.mins);
    TargetSeen(b.mins);
    TargetIs(a.mins, p);
    TargetIs(b.mins, q);
    PlusNone(p, -c);
    if p != [] {
      MedianPlus(p, -c);
    }
  }

  lemma PlusNone(p: seq<int>, c: int)
    ensures Plus(p, c) == [] <==> p == []
  {
  }

  lemma MinsApart(a: State, b: State, c: int)
    requires Apart(a, b, c)
    ensures |a.mins| == |b.mins| == SLOTS
    ensures forall i | 0 <= i < |a.mins| ::
              b.mins[i] == ShiftMin(a.mins[i], c) && (a.mins[i] != UNSEEN ==> b.mins[i] < UNSEEN)
  {
  }

  lemma ApartReady(a: State, b: State, c: int)
    requires Apart(a, b, c)
    ensures WellFormed(a) && WellFormed(b) && b.ready == a.ready && b.offset == a.offset - c
  {
  }

  lemma ShiftedLate(x: Sample, c: int)
    ensures Late(ShiftedSample(x, c)) == Late(x) - c
    ensures ShiftedSample(x, c).media == x.media + c && ShiftedSample(x, c).now == x.now
  {
  }

  lemma FirstApart(x: Sample, c: int)
    requires Late(x) < UNSEEN && Late(x) - c < UNSEEN
    ensures Apart(Step(Initial(), x.media, x.now), Step(Initial(), x.media + c, x.now), c)
  {
  }

  lemma ShiftedParts(h: seq<Sample>, c: int)
    requires h != []
    ensures var g := Shifted(h, c);
            && g[..|h| - 1] == Shifted(h[..|h| - 1], c) && g[0] == ShiftedSample(h[0], c)
            && g[|h| - 1] == ShiftedSample(h[|h| - 1], c)
  {
    assert Shifted(h, c)[..|h| - 1] == Shifted(h[..|h| - 1], c);
  }

  lemma {:induction false} RunsApart(h: seq<Sample>, c: int)
    requires h != [] && forall i | 0 <= i < |h| :: Late(h[i]) < UNSEEN && Late(h[i]) - c < UNSEEN
    ensures Apart(Run(h), Run(Shifted(h, c)), c)
  {
    hide *;
    var init, x := h[..|h| - 1], h[|h| - 1];
    ShiftedParts(h, c);
    ShiftedLate(x, c);
    RunIs(h);
    RunIs(Shifted(h, c));
    if |h| == 1 {
      FirstApart(x, c);
    } else {
      EverReady(init);
      RunsApart(init, c);
      StepApart(Run(init), Run(Shifted(init, c)), c, x);
    }
  }

  /** Epoch independence. Adding a constant to every producer timestamp of a run
      shifts the tracked offset by its negative and leaves every mapped result
      of the run unchanged. */
  lemma EpochIndependence(h: seq<Sample>, c: int, n: nat)
    requires 0 < n <= |h| && forall i | 0 <= i < |h| :: Late(h[i]) < UNSEEN && Late(h[i]) - c < UNSEEN
    ensures Run(Shifted(h, c)[..n]).offset == Run(h[..n]).offset - c
    ensures Mapped(Shifted(h, c)[..n]) == Mapped(h[..n])
  {
    RunsApart(h[..n], c);
    ApartReady(Run(h[..n]), Run(Shifted(h[..n], c)), c);
    hide Run, Apart, Late;
    assert Shifted(h, c)[..n] == Shifted(h[..n], c);
  }
}
