/** The ring of minima against the plain history of samples. */
module ClockHistory {
  import opened ClockMedian
  import opened MediaClock

  // ---- the history alone

  // The last reset, and the samples since then
  datatype Window = Window(origin: int, recent: seq<Sample>)

  function Second(w: Window, now: int): int {
    (now - w.origin) / 1_000_000
  }

  function StartOf(w: Window, sec: int): int {
    w.origin + sec * 1_000_000
  }

  // The second of the last sample
  function Current(w: Window): int
    requires w.recent != []
  {
    Second(w, w.recent[|w.recent| - 1].now)
  }

  // A sample before the current second, or sixteen seconds past its start, resets the window.
  function Extend(w: Window, x: Sample): Window
    requires w.recent != []
  {
    var start := StartOf(w, Current(w));
    if x.now < start || x.now >= start + 16_000_000 then Window(x.now, [x])
    else w.(recent := w.recent + [x])
  }

  function WindowOf(h: seq<Sample>): (w: Window)
    requires h != []
    ensures w.recent != []
  {
    if |h| == 1 then Window(h[0].now, h) else Extend(WindowOf(h[..|h| - 1]), h[|h| - 1])
  }

  // The smallest lateness among the samples of one second, or UNSEEN
  function MinIn(w: Window, sec: int): int {
    MinOf(w, w.recent, sec)
  }

  function MinOf(w: Window, xs: seq<Sample>, sec: int): int {
    if xs == [] then UNSEEN
    else
      var x := xs[|xs| - 1];
      var m := MinOf(w, xs[..|xs| - 1], sec);
      if Second(w, x.now) == sec && Late(x) < m then Late(x) else m
  }

  /** MinOf is the minimum it says: below no sample of that second, and one of
      them if there are any. */
  lemma {:induction false} MinOfIsMin(w: Window, xs: seq<Sample>, sec: int)
    ensures forall i | 0 <= i < |xs| && Second(w, xs[i].now) == sec :: MinOf(w, xs, sec) <= Late(xs[i])
    ensures MinOf(w, xs, sec) == UNSEEN
            || exists i | 0 <= i < |xs| :: Second(w, xs[i].now) == sec && MinOf(w, xs, sec) == Late(xs[i])
  {
    if xs != [] {
      var init := xs[..|xs| - 1];
      MinOfIsMin(w, init, sec);
      hide Second;
      if MinOf(w, init, sec) != UNSEEN {
        var i :| 0 <= i < |init| && Second(w, init[i].now) == sec && MinOf(w, init, sec) == Late(init[i]);
        assert xs[i] == init[i];
      }
    }
  }

  // ---- the ring holds the minima

  // Slot (bucket - k) mod 16 is second cur - k.
  function Slot(cur: int, k: int): (i: nat)
    ensures i < SLOTS
  {
    (cur - k) % 16
  }

  predicate SlotHolds(mins: seq<int>, w: Window, cur: int, k: int)
    requires |mins| == SLOTS
  {
    mins[Slot(cur, k)] == MinIn(w, cur - k)
  }

  predicate RingHolds(s: State, w: Window, cur: int) {
    && WellFormed(s)
    && s.bucket == Slot(cur, 0)
    && s.start == StartOf(w, cur)
    && forall k | 0 <= k < SLOTS :: SlotHolds(s.mins, w, cur, k)
  }

  lemma SlotsDiffer(cur: int, k: int)
    requires 0 <= k < SLOTS
    ensures Slot(cur, k) == Slot(cur, 0) <==> k == 0
    ensures Slot(cur + 1, k) == Slot(cur, k - 1)
    ensures (Slot(cur, 0) + 1) % SLOTS == Slot(cur + 1, 0)
  {
    SlotApart(cur, k);
    SlotNext(cur);
  }

  lemma SlotApart(cur: int, k: int)
    requires 0 <= k < 16
    ensures Slot(cur, k) == Slot(cur, 0) <==> k == 0
  {
    if k > 0 {
      assert cur % 16 != (cur - k) % 16;
    }
  }

  lemma SlotNext(cur: int)
    ensures (Slot(cur, 0) + 1) % 16 == Slot(cur + 1, 0)
  {
  }

  lemma ASecond()
    ensures SECOND == 1_000_000
  {
  }

  lemma NextSlotHolds(s: State, w: Window, cur: int, k: int)
    requires RingHolds(s, w, cur) && MinIn(w, cur + 1) == UNSEEN && 0 <= k < SLOTS
    ensures SlotHolds(NextSecond(s).mins, w, cur + 1, k)
  {
    SlotsDiffer(cur, k);
    SlotsDiffer(cur + 1, k);
    hide MinIn, Slot;
    if k > 0 {
      assert SlotHolds(s.mins, w, cur, k - 1);
    }
  }

  lemma NextSecondHolds(s: State, w: Window, cur: int)
    requires RingHolds(s, w, cur) && MinIn(w, cur + 1) == UNSEEN
    ensures RingHolds(NextSecond(s), w, cur + 1)
  {
    SlotsDiffer(cur, 0);
    var r, c := NextSecond(s), cur + 1;
    forall k | 0 <= k < SLOTS
      ensures SlotHolds(r.mins, w, c, k)
    {
      NextSlotHolds(s, w, cur, k);
    }
    hide MinIn, Slot, SlotHolds;
  }

  // Nothing has been seen after second cur.
  predicate Fresh(w: Window, cur: int) {
    forall i | 0 <= i < |w.recent| :: Second(w, w.recent[i].now) <= cur
  }

  lemma {:induction false} NothingIn(w: Window, xs: seq<Sample>, sec: int)
    requires forall i | 0 <= i < |xs| :: Second(w, xs[i].now) < sec
    ensures MinOf(w, xs, sec) == UNSEEN
  {
    hide Second;
    if xs != [] {
      NothingIn(w, xs[..|xs| - 1], sec);
    }
  }

  lemma RollSteps(s: State, now: int)
    requires WellFormed(s)
    ensures now - s.start < SECOND ==> Roll(s, now) == s
    ensures now - s.start >= SECOND ==> Roll(s, now) == Roll(NextSecond(s), now)
  {
    hide NextSecond;
  }

  lemma RingFacts(s: State, w: Window, cur: int, now: int)
    requires RingHolds(s, w, cur) && now >= s.start
    ensures WellFormed(s) && s.start == StartOf(w, cur)
    ensures now - s.start < SECOND ==> Second(w, now) == cur
    ensures NextSecond(s).start == s.start + SECOND
  {
    hide SlotHolds, Slot;
  }

  lemma {:induction false} RollHolds(s: State, w: Window, cur: int, now: int)
    requires RingHolds(s, w, cur) && Fresh(w, cur) && now >= s.start
    ensures RingHolds(Roll(s, now), w, Second(w, now)) && Fresh(w, Second(w, now))
    decreases now - s.start
  {
    hide *;
    RingFacts(s, w, cur, now);
    RollSteps(s, now);
    ASecond();
    if now - s.start >= SECOND {
      NothingNext(w, cur);
      NextSecondHolds(s, w, cur);
      RollHolds(NextSecond(s), w, cur + 1, now);
    }
  }

  lemma NothingNext(w: Window, cur: int)
    requires Fresh(w, cur)
    ensures MinIn(w, cur + 1) == UNSEEN && Fresh(w, cur + 1)
  {
    hide Second;
    NothingIn(w, w.recent, cur + 1);
  }

  lemma RecordSlot(s: State, w: Window, x: Sample, k: int)
    requires RingHolds(s, w, Second(w, x.now)) && 0 <= k < SLOTS
    ensures SlotHolds(Record(s, Late(x)).mins, w.(recent := w.recent + [x]), Second(w, x.now), k)
  {
    var cur := Second(w, x.now);
    SlotsDiffer(cur, k);
    assert SlotHolds(s.mins, w, cur, k) && SlotHolds(s.mins, w, cur, 0);
    MinPush(w, x, cur - k);
    hide MinIn, Slot, Second, RingHolds;
  }

  lemma RecordHolds(s: State, w: Window, x: Sample)
    requires RingHolds(s, w, Second(w, x.now))
    ensures RingHolds(Record(s, Late(x)), w.(recent := w.recent + [x]), Second(w, x.now))
  {
    forall k | 0 <= k < SLOTS
      ensures SlotHolds(Record(s, Late(x)).mins, w.(recent := w.recent + [x]), Second(w, x.now), k)
    {
      RecordSlot(s, w, x, k);
    }
    hide SlotHolds, Second, Slot;
  }

  lemma MinPush(w: Window, x: Sample, sec: int)
    ensures MinIn(w.(recent := w.recent + [x]), sec)
         == if Second(w, x.now) == sec && Late(x) < MinIn(w, sec) then Late(x) else MinIn(w, sec)
  {
    var w' := w.(recent := w.recent + [x]);
    assert (w.recent + [x])[..|w.recent|] == w.recent;
    SameOrigin(w, w', w.recent, sec);
  }

  lemma {:induction false} SameOrigin(w: Window, w': Window, xs: seq<Sample>, sec: int)
    requires w.origin == w'.origin
    ensures MinOf(w', xs, sec) == MinOf(w, xs, sec)
  {
    if xs != [] {
      SameOrigin(w, w', xs[..|xs| - 1], sec);
    }
  }

  // A window of one sample, right after a reset
  lemma ResetHolds(s: State, x: Sample)
    requires WellFormed(s) && s.mins == Cleared() && s.bucket == 0 && s.start == x.now
    ensures RingHolds(Record(s, Late(x)), Window(x.now, [x]), 0) && Fresh(Window(x.now, [x]), 0)
  {
    var w := Window(x.now, []);
    assert w.recent + [x] == [x];
    assert Second(w, x.now) == 0;
    RecordHolds(s, w, x);
  }

  lemma FirstHolds(x: Sample)
    requires Late(x) < UNSEEN
    ensures RingHolds(Step(Initial(), x.media, x.now), Window(x.now, [x]), 0) && Fresh(Window(x.now, [x]), 0)
  {
    var s := Initial().(start := x.now);
    ResetHolds(s, x);
    var r, t := Record(s, Late(x)), Step(Initial(), x.media, x.now);
    assert r.mins == t.mins && r.bucket == t.bucket && r.start == t.start;
    SameRing(r, t, Window(x.now, [x]), 0);
  }

  lemma SameRing(r: State, t: State, w: Window, cur: int)
    requires RingHolds(r, w, cur) && t.mins == r.mins && t.bucket == r.bucket && t.start == r.start
    ensures RingHolds(t, w, cur)
  {
    hide SlotHolds, Slot, StartOf;
  }

  lemma StepIs(s: State, x: Sample)
    requires s.ready && WellFormed(s)
    ensures var seen, r := Record(Advance(s, x.now), Late(x)), Step(s, x.media, x.now);
            r.mins == seen.mins && r.bucket == seen.bucket && r.start == seen.start
  {
    hide Advance, Target, Record;
  }

  lemma ExtendIs(s: State, w: Window, x: Sample)
    requires w.recent != [] && RingHolds(s, w, Current(w))
    ensures Resets(s, x.now) ==> Extend(w, x) == Window(x.now, [x])
    ensures !Resets(s, x.now) ==> Extend(w, x) == w.(recent := w.recent + [x]) && x.now >= s.start
    ensures Current(Extend(w, x)) == Second(Extend(w, x), x.now)
  {
    hide SlotHolds, Slot, Second;
  }

  lemma AdvanceIs(s: State, now: int)
    requires WellFormed(s)
    ensures Resets(s, now) ==>
              var a := Advance(s, now); a.mins == Cleared() && a.bucket == 0 && a.start == now
    ensures !Resets(s, now) ==> Advance(s, now) == Roll(s, now)
  {
    hide Roll;
  }

  lemma FreshPush(w: Window, x: Sample)
    requires Fresh(w, Second(w, x.now))
    ensures Fresh(w.(recent := w.recent + [x]), Second(w, x.now))
  {
    var w' := w.(recent := w.recent + [x]);
    assert forall y: int :: Second(w', y) == Second(w, y);
    hide Second;
  }

  lemma ExtendHolds(s: State, w: Window, x: Sample)
    requires s.ready && w.recent != [] && RingHolds(s, w, Current(w)) && Fresh(w, Current(w))
    ensures var w' := Extend(w, x);
            RingHolds(Step(s, x.media, x.now), w', Current(w')) && Fresh(w', Current(w'))
  {
    RingFacts(s, w, Current(w), s.start);
    hide *;
    var w', a := Extend(w, x), Advance(s, x.now);
    ExtendIs(s, w, x);
    AdvanceIs(s, x.now);
    StepIs(s, x);
    if Resets(s, x.now) {
      ResetHolds(a, x);
      ZeroSecond(x);
    } else {
      RollHolds(s, w, Current(w), x.now);
      RecordHolds(a, w, x);
      FreshPush(w, x);
      SecondPush(w, x);
    }
    SameRing(Record(a, Late(x)), Step(s, x.media, x.now), w', Current(w'));
  }

  lemma ZeroSecond(x: Sample)
    ensures Second(Window(x.now, [x]), x.now) == 0
  {
  }

  lemma SecondPush(w: Window, x: Sample)
    ensures Second(w.(recent := w.recent + [x]), x.now) == Second(w, x.now)
  {
  }

  /** The window refines the history. After every call, slot (bucket - k) mod 16
      holds the smallest lateness of exactly the samples since the last reset
      that lie in the k-th most recent second, or the sentinel if there are none. */
  lemma {:induction false} WindowRefines(h: seq<Sample>)
    requires h != [] && forall i | 0 <= i < |h| :: Late(h[i]) < UNSEEN
    ensures RingHolds(Run(h), WindowOf(h), Current(WindowOf(h)))
    ensures Fresh(WindowOf(h), Current(WindowOf(h)))
  {
    var init, x := h[..|h| - 1], h[|h| - 1];
    RunIs(h);
    if |h| == 1 {
      FirstHolds(x);
      ZeroSecond(x);
    } else {
      hide RingHolds, Fresh, Step, Extend, Late;
      WindowRefines(init);
      EverReady(init);
      ExtendHolds(Run(init), WindowOf(init), x);
    }
  }

  lemma RunIs(h: seq<Sample>)
    requires h != []
    ensures Run(h) == Step(Run(h[..|h| - 1]), h[|h| - 1].media, h[|h| - 1].now)
    ensures |h| == 1 ==> Run(h) == Step(Initial(), h[0].media, h[0].now) && WindowOf(h) == Window(h[0].now, [h[0]])
    ensures |h| > 1 ==> WindowOf(h) == Extend(WindowOf(h[..|h| - 1]), h[|h| - 1])
  {
    hide Step, Extend;
    if |h| == 1 {
      assert h == [h[0]] && h[..0] == [];
    }
  }

  // ---- what the target says about the history

  // The seconds of the window that have a sample, as their minima in slot order
  function SeenMinima(h: seq<Sample>): seq<int>
    requires h != []
  {
    Populated(Run(h).mins, SLOTS)
  }

  lemma {:induction false} PopulatedBelow(mins: seq<int>, n: nat, x: int)
    requires n <= |mins| && x <= UNSEEN
    ensures Below(Populated(mins, n), x) == BelowSlots(mins, n, x)
  {
    if n > 0 {
      PopulatedBelow(mins, n - 1, x);
      var p := Populated(mins, n - 1);
      if mins[n - 1] == UNSEEN {
        assert p + [] == p;
      } else {
        assert (p + [mins[n - 1]])[..|p|] == p;
      }
    }
  }

  // How many of the first n slots are below x
  function BelowSlots(mins: seq<int>, n: nat, x: int): nat
    requires n <= |mins|
  {
    if n == 0 then 0 else BelowSlots(mins, n - 1, x) + if mins[n - 1] < x then 1 else 0
  }

  lemma {:induction false} PopulatedLength(mins: seq<int>, n: nat)
    requires n <= |mins| && forall i | 0 <= i < |mins| :: mins[i] <= UNSEEN
    ensures |Populated(mins, n)| == BelowSlots(mins, n, UNSEEN)
  {
    if n > 0 {
      PopulatedLength(mins, n - 1);
    }
  }

  // How many of the n most recent seconds hold a sample below x
  function SecondsBelow(w: Window, cur: int, n: nat, x: int): nat {
    if n == 0 then 0 else SecondsBelow(w, cur, n - 1, x) + if MinIn(w, cur - (n - 1)) < x then 1 else 0
  }

  // Counting the seconds back from the current one walks the slots down and round.
  lemma {:induction false} WalksDown(s: State, w: Window, cur: int, n: nat, x: int)
    requires RingHolds(s, w, cur) && n <= s.bucket + 1
    ensures SecondsBelow(w, cur, n, x) + BelowSlots(s.mins, s.bucket + 1 - n, x) == BelowSlots(s.mins, s.bucket + 1, x)
  {
    if n > 0 {
      WalksDown(s, w, cur, n - 1, x);
      SlotDown(s, w, cur, n - 1);
      assert SlotHolds(s.mins, w, cur, n - 1);
    }
  }

  lemma {:induction false} WalksRound(s: State, w: Window, cur: int, n: nat, x: int)
    requires RingHolds(s, w, cur) && s.bucket + 1 <= n <= SLOTS
    ensures SecondsBelow(w, cur, n, x) + BelowSlots(s.mins, SLOTS + s.bucket + 1 - n, x)
         == BelowSlots(s.mins, s.bucket + 1, x) + BelowSlots(s.mins, SLOTS, x)
  {
    if n == s.bucket + 1 {
      WalksDown(s, w, cur, n, x);
    } else {
      WalksRound(s, w, cur, n - 1, x);
      SlotDown(s, w, cur, n - 1);
      assert SlotHolds(s.mins, w, cur, n - 1);
    }
  }

  lemma SlotDown(s: State, w: Window, cur: int, k: nat)
    requires RingHolds(s, w, cur) && k < SLOTS
    ensures Slot(cur, k) == if k <= s.bucket then s.bucket - k else SLOTS + s.bucket - k
  {
  }

  lemma {:induction false} MinAtMost(w: Window, xs: seq<Sample>, sec: int)
    ensures MinOf(w, xs, sec) <= UNSEEN
  {
    if xs != [] {
      MinAtMost(w, xs[..|xs| - 1], sec);
    }
  }

  lemma SlotBack(cur: int, i: nat)
    requires i < SLOTS
    ensures Slot(cur, (cur - i) % 16) == i
  {
  }

  lemma SlotsAtMost(s: State, w: Window, cur: int)
    requires RingHolds(s, w, cur)
    ensures forall i | 0 <= i < SLOTS :: s.mins[i] <= UNSEEN
  {
    forall i | 0 <= i < SLOTS
      ensures s.mins[i] <= UNSEEN
    {
      var k := (cur - i) % 16;
      SlotBack(cur, i);
      hide Slot;
      assert SlotHolds(s.mins, w, cur, k);
      MinAtMost(w, w.recent, cur - k);
    }
  }

  /** The target, told from the history alone: of the last sixteen seconds take
      those that have a sample. The target is the fastest sample of one of them,
      and it is at or above a floor exactly when at most half of them hold a
      sample faster than the floor, however fast such samples are. */
  lemma TargetIsRobust(h: seq<Sample>, floor: int)
    requires h != [] && (forall i | 0 <= i < |h| :: Late(h[i]) < UNSEEN) && floor <= UNSEEN
    requires SeenMinima(h) != []
    ensures Target(Run(h).mins) in SeenMinima(h)
    ensures var (w, cur) := (WindowOf(h), Current(WindowOf(h)));
            && |SeenMinima(h)| == SecondsBelow(w, cur, SLOTS, UNSEEN)
            && (Target(Run(h).mins) >= floor
                <==> SecondsBelow(w, cur, SLOTS, floor) <= SecondsBelow(w, cur, SLOTS, UNSEEN) / 2)
  {
    hide Run, WindowOf, RingHolds, Median;
    var s, w := Run(h), WindowOf(h);
    var cur := Current(w);
    WindowRefines(h);
    SlotsAtMost(s, w, cur);
    MedianRank(SeenMinima(h), floor);
    MedianIn(SeenMinima(h));
    PopulatedBelow(s.mins, SLOTS, floor);
    PopulatedLength(s.mins, SLOTS);
    WalksRound(s, w, cur, SLOTS, floor);
    WalksRound(s, w, cur, SLOTS, UNSEEN);
  }
}
