/** How the offset follows the target, one sample after another: the filtered error
    goes a sixteenth of the way to the present error, and the offset a sixteenth of
    the filtered error, up to the clamp. */
module ClockFilter {
  import opened MediaClock
  import opened ClockEpoch
  import opened ClockHistory

  function Size(a: int): nat {
    if a < 0 then -a else a
  }

  // No lateness is the sentinel or beyond.
  predicate AllSeen(h: seq<Sample>) {
    forall i | 0 <= i < |h| :: Late(h[i]) < UNSEEN
  }

  // m lies between a and b.
  predicate Between(m: int, a: int, b: int) {
    a <= m <= b || b <= m <= a
  }

  // step is a sixteenth of way, cut towards zero.
  predicate Sixteenth(step: int, way: int) {
    && (step > 0 ==> way > 0) && (step < 0 ==> way < 0)
    && 16 * Size(step) <= Size(way) < 16 * Size(step) + 16
  }

  // The same, but never more than a millisecond
  predicate ClampedSixteenth(step: int, way: int) {
    if Size(way) <= 16_000 then Sixteenth(step, way) else step == if way > 0 then 1000 else -1000
  }

  lemma TruncIs(a: int)
    ensures Sixteenth(TruncDiv(a, 16), a)
  {
  }

  lemma ClampIs(a: int)
    ensures ClampedSixteenth(Clamp(TruncDiv(a, 16)), a)
  {
  }

  // Every sample leaves its second populated, so there is a target.
  lemma RecordSeen(s: State, sample: int)
    requires WellFormed(s) && sample < UNSEEN && forall i | 0 <= i < SLOTS :: s.mins[i] <= UNSEEN
    ensures Target(Record(s, sample).mins) != UNSEEN
  {
    var mins := Record(s, sample).mins;
    assert mins[s.bucket] != UNSEEN;
    PopulatedHas(mins, SLOTS, s.bucket);
    TargetSeen(mins);
  }

  lemma {:induction false} PopulatedHas(mins: seq<int>, n: nat, i: nat)
    requires i < n <= |mins| && mins[i] != UNSEEN
    ensures Populated(mins, n) != []
  {
    if i < n - 1 {
      PopulatedHas(mins, n - 1, i);
    }
  }

  lemma {:induction false} RollAtMost(s: State, now: int)
    requires WellFormed(s) && forall i | 0 <= i < SLOTS :: s.mins[i] <= UNSEEN
    ensures forall i | 0 <= i < SLOTS :: Roll(s, now).mins[i] <= UNSEEN
    decreases now - s.start
  {
    if now - s.start >= SECOND {
      RollAtMost(NextSecond(s), now);
    }
  }

  lemma {:induction false} RunAtMost(h: seq<Sample>)
    requires AllSeen(h)
    ensures forall i | 0 <= i < SLOTS :: Run(h).mins[i] <= UNSEEN
  {
    if h != [] {
      hide Roll, Target, Clamp, TruncDiv;
      var g, x := h[..|h| - 1], h[|h| - 1];
      RunAtMost(g);
      RollAtMost(Run(g), x.now);
    }
  }

  lemma FollowIs(s: State, target: int)
    requires WellFormed(s) && target != UNSEEN
    ensures var t := Follow(s, target);
            && t.mins == s.mins && t.ewma == s.ewma + TruncDiv(target - s.offset - s.ewma, 16)
            && t.offset == s.offset + Clamp(TruncDiv(t.ewma, 16))
  {
    hide TruncDiv, Clamp;
  }

  lemma RecordFollows(s: State, sample: int)
    requires WellFormed(s)
    ensures var r := Record(s, sample); r.offset == s.offset && r.ewma == s.ewma
  {
  }

  lemma AdvanceAtMost(s: State, now: int)
    requires WellFormed(s) && forall i | 0 <= i < SLOTS :: s.mins[i] <= UNSEEN
    ensures forall i | 0 <= i < SLOTS :: Advance(s, now).mins[i] <= UNSEEN
  {
    hide Roll;
    if !Resets(s, now) {
      RollAtMost(s, now);
    }
  }

  // A run and one more sample
  lemma PushedSamples(h: seq<Sample>, x: Sample)
    requires AllSeen(h + [x])
    ensures Late(x) < UNSEEN && AllSeen(h)
    ensures Run(h + [x]) == Step(Run(h), x.media, x.now)
  {
    assert (h + [x])[..|h|] == h;
    assert forall i | 0 <= i < |h| :: h[i] == (h + [x])[i];
    assert (h + [x])[|h|] == x;
    hide Late, Step, Run;
    RunIs(h + [x]);
  }

  // What one more sample does to the filter
  lemma Pushed(h: seq<Sample>, x: Sample)
    requires h != [] && AllSeen(h + [x])
    ensures var (s, t) := (Run(h), Run(h + [x]));
            var err := Target(t.mins) - s.offset;
            && Target(t.mins) != UNSEEN
            && t.ewma == s.ewma + TruncDiv(err - s.ewma, 16)
            && t.offset == s.offset + Clamp(TruncDiv(t.ewma, 16))
  {
    hide *;
    PushedSamples(h, x);
    var s := Run(h);
    EverReady(h);
    ReadyKept(s, x);
    RunAtMost(h);
    AdvanceAtMost(s, x.now);
    OffsetOnlyFollows(s, x.now);
    var a := Advance(s, x.now);
    RecordFollows(a, Late(x));
    RecordSeen(a, Late(x));
    var r := Record(a, Late(x));
    FollowIs(r, Target(r.mins));
  }

  /** The first sample is mapped to the time at which it came. */
  lemma FirstMapsToNow(x: Sample)
    ensures Mapped([x]) == x.now
  {
    assert [x][..0] == [];
    assert Run([]) == Initial();
  }

  /** One more sample: the filtered error moves a sixteenth of the way from where it
      was to the distance between target and offset, and the offset moves by a
      sixteenth of the filtered error, in its direction, up to a millisecond. */
  lemma OffsetFollows(h: seq<Sample>, x: Sample)
    requires h != [] && AllSeen(h + [x])
    ensures var (s, t) := (Run(h), Run(h + [x]));
            var err := Target(t.mins) - s.offset;
            && Sixteenth(t.ewma - s.ewma, err - s.ewma)
            && ClampedSixteenth(t.offset - s.offset, t.ewma)
  {
    hide Run, Target;
    Pushed(h, x);
    var s, t := Run(h), Run(h + [x]);
    TruncIs(Target(t.mins) - s.offset - s.ewma);
    ClampIs(t.ewma);
  }

  /** So the filtered error stays between its old value and the present error, and
      gets nearer to it whenever they are sixteen or more apart. */
  lemma ErrorFollows(h: seq<Sample>, x: Sample)
    requires h != [] && AllSeen(h + [x])
    ensures var (s, t) := (Run(h), Run(h + [x]));
            var err := Target(t.mins) - s.offset;
            && Between(t.ewma, s.ewma, err)
            && (Size(err - s.ewma) >= 16 <==> Size(err - t.ewma) < Size(err - s.ewma))
  {
    hide Run, Target;
    OffsetFollows(h, x);
  }

  /** From a settled filter the offset never moves away from the target and never past
      it, and it moves if and only if the target is 256 microseconds away or more. */
  lemma SettledGoesToTarget(h: seq<Sample>, x: Sample)
    requires h != [] && AllSeen(h + [x])
    requires Run(h).ewma == 0
    ensures var (s, t) := (Run(h), Run(h + [x]));
            var target := Target(t.mins);
            && Between(t.offset, s.offset, target)
            && (Size(target - s.offset) >= 256 <==> Size(target - t.offset) < Size(target - s.offset))
            && (Size(target - s.offset) < 256 <==> t.offset == s.offset)
  {
    hide Run, Target;
    OffsetFollows(h, x);
  }

  /** The clock rests if and only if the filtered error is below sixteen and within
      fifteen of the present error; then the target is at most 30 microseconds away. */
  lemma RestsNearTarget(h: seq<Sample>, x: Sample)
    requires h != [] && AllSeen(h + [x])
    ensures var (s, t) := (Run(h), Run(h + [x]));
            var err := Target(t.mins) - s.offset;
            && (t.ewma == s.ewma && t.offset == s.offset <==> Size(s.ewma) < 16 && Size(err - s.ewma) < 16)
            && (t.ewma == s.ewma && t.offset == s.offset ==> Size(err) <= 30)
  {
    hide Run, Target;
    OffsetFollows(h, x);
  }
}
