/** What the time stamp parser answers for every byte string, in terms of the layout of
    SEI messages alone.

    A message is a payload type, a payload size and a payload (section 7.3.2.3.1 of
    ITU-T H.264). `Hop` goes over a complete message that is not a time stamp, `Path`
    is a chain of hops from the NAL header on, and `Hit` is a complete time stamp
    message. The answers are decided by whether a path leads to a hit, and by the
    guard bytes of that hit. A message that is cut short is never a hit. */
module SeiAnswers {
  import opened Basics
  import opened VuiEscape
  import opened SeiTimestamp

  // ---- the layout

  // A type or size coded in nal[p..q]: FF bytes, and one that is not
  predicate VarIs(nal: Bytes, p: nat, q: nat, v: nat) {
    && p < q <= |nal|
    && nal[q - 1] != 0xff && (forall i | p <= i < q - 1 :: nal[i] == 0xff)
    && v == Wrap32(255 * (q - 1 - p) + nal[q - 1] as nat)
  }

  // The stop bit with nothing but zero bytes behind it, or the end
  predicate Stops(nal: Bytes, p: nat) {
    p >= |nal| || (nal[p] == 0x80 && ZeroFrom(nal, p + 1))
  }

  // A message starts at p: its size is coded from q on, its payload from d on.
  predicate MessageAt(nal: Bytes, p: nat, q: nat, kind: nat, d: nat, size: nat) {
    !Stops(nal, p) && VarIs(nal, p, q, kind) && VarIs(nal, q, d, size)
  }

  predicate CompleteAt(nal: Bytes, p: nat, q: nat, kind: nat, d: nat, size: nat) {
    MessageAt(nal, p, q, kind, d, size) && d + size <= |nal|
  }

  // The message at p is no time stamp, and the next one starts at t.
  predicate Passes(nal: Bytes, codec: int, p: nat, t: nat, q: nat, kind: nat, d: nat, size: nat) {
    CompleteAt(nal, p, q, kind, d, size) && t == d + size && !Matches(codec, kind, nal[d..d + size])
  }

  ghost predicate Hop(nal: Bytes, codec: int, p: nat, t: nat) {
    exists q: nat, kind: nat, d: nat, size: nat :: Passes(nal, codec, p, t, q, kind, d, size)
  }

  ghost predicate Path(nal: Bytes, codec: int, p: nat, ps: seq<nat>) {
    |ps| > 0 && ps[0] == p && forall i | 0 <= i < |ps| - 1 :: Hop(nal, codec, ps[i], ps[i + 1])
  }

  function Last(ps: seq<nat>): nat
    requires |ps| > 0
  {
    ps[|ps| - 1]
  }

  // The message at p is complete and has the identifier: its stamp bytes are at s.
  predicate Carries(nal: Bytes, codec: int, p: nat, s: nat, q: nat, size: nat) {
    && s >= 16 && CompleteAt(nal, p, q, UDU, s - 16, size) && size >= PAYLOAD_SIZE
    && nal[s - 16..s] == Uuid(codec)
  }

  ghost predicate Hit(nal: Bytes, codec: int, p: nat, s: nat) {
    exists q: nat, size: nat :: Carries(nal, codec, p, s, q, size)
  }

  ghost predicate Leads(nal: Bytes, codec: int, p: nat, ps: seq<nat>, s: nat) {
    Path(nal, codec, p, ps) && Hit(nal, codec, Last(ps), s)
  }

  // A path leads to a hit, with its stamp bytes at s.
  ghost predicate Found(nal: Bytes, codec: int, p: nat, s: nat) {
    s + 12 <= |nal| && exists ps :: Leads(nal, codec, p, ps, s)
  }

  predicate Guarded(nal: Bytes, s: nat)
    requires s + 12 <= |nal|
  {
    nal[s + 3] == 0xff && nal[s + 6] == 0xff && nal[s + 9] == 0xff
  }

  // ---- the parser reads that layout

  lemma {:induction false} VarAtIs(nal: Bytes, p: nat, acc: nat, from: nat)
    requires from <= p <= |nal| && acc == Wrap32(255 * (p - from)) && forall i | from <= i < p :: nal[i] == 0xff
    ensures match VarAt(nal, p, acc)
            case Ok((q, v)) => VarIs(nal, from, q, v)
            case Err(e) => e == ENOENT && forall q: nat, v: nat :: !VarIs(nal, from, q, v)
    decreases |nal| - p
  {
    if p < |nal| {
      if nal[p] == 0xff {
        WrapAdds(255 * (p - from), 255);
        VarAtIs(nal, p + 1, Wrap32(acc + 255), from);
      } else {
        WrapAdds(255 * (p - from), nal[p] as nat);
      }
    }
  }

  lemma WrapAdds(a: nat, b: nat)
    ensures Wrap32(Wrap32(a) + b) == Wrap32(a + b)
  {
  }

  // A type or size is coded in one way.
  lemma VarUnique(nal: Bytes, p: nat, q: nat, v: nat, q': nat, v': nat)
    requires VarIs(nal, p, q, v) && VarIs(nal, p, q', v')
    ensures q == q' && v == v'
  {
  }

  lemma VarRead(nal: Bytes, p: nat, q: nat, v: nat)
    requires VarIs(nal, p, q, v)
    ensures VarAt(nal, p, 0) == Ok((q, v))
  {
    VarAtIs(nal, p, 0, p);
    hide VarAt, VarIs;
    var q', v' := VarAt(nal, p, 0).value.0, VarAt(nal, p, 0).value.1;
    VarUnique(nal, p, q, v, q', v');
  }

  lemma MessageParts(nal: Bytes, p: nat, q: nat, kind: nat, d: nat, size: nat)
    requires MessageAt(nal, p, q, kind, d, size)
    ensures p < |nal| && !Stops(nal, p) && q <= |nal| && d <= |nal|
    ensures VarIs(nal, p, q, kind) && VarIs(nal, q, d, size)
  {
    hide ZeroFrom, Wrap32;
  }

  lemma WalkUnfold(nal: Bytes, codec: int, p: nat, q: nat, kind: nat, d: nat, size: nat)
    requires p < |nal| && !Stops(nal, p) && q <= |nal| && d <= |nal|
    requires VarAt(nal, p, 0) == Ok((q, kind)) && VarAt(nal, q, 0) == Ok((d, size))
    ensures Walk(nal, p, codec)
         == if |nal| - d < size then Err(ENOENT)
            else if Matches(codec, kind, nal[d..d + size]) then ReadStamp(nal[d + 16..d + size])
            else Walk(nal, d + size, codec)
  {
    hide VarAt, ReadStamp, Uuid, ZeroFrom;
  }

  lemma WalkAt(nal: Bytes, codec: int, p: nat, q: nat, kind: nat, d: nat, size: nat)
    requires MessageAt(nal, p, q, kind, d, size)
    ensures p < |nal| && d <= |nal|
    ensures Walk(nal, p, codec)
         == if |nal| - d < size then Err(ENOENT)
            else if Matches(codec, kind, nal[d..d + size]) then ReadStamp(nal[d + 16..d + size])
            else Walk(nal, d + size, codec)
  {
    hide *;
    MessageParts(nal, p, q, kind, d, size);
    VarRead(nal, p, q, kind);
    VarRead(nal, q, d, size);
    WalkUnfold(nal, codec, p, q, kind, d, size);
  }

  lemma HopWalks(nal: Bytes, codec: int, p: nat, t: nat)
    requires Hop(nal, codec, p, t)
    ensures p < |nal| && t <= |nal| && Walk(nal, p, codec) == Walk(nal, t, codec)
  {
    hide Walk, VarIs, Matches, Stops;
    var q: nat, kind: nat, d: nat, size: nat :| Passes(nal, codec, p, t, q, kind, d, size);
    WalkAt(nal, codec, p, q, kind, d, size);
  }

  lemma {:induction false} PathWalks(nal: Bytes, codec: int, p: nat, ps: seq<nat>)
    requires p <= |nal| && Path(nal, codec, p, ps)
    ensures Last(ps) <= |nal| && Walk(nal, p, codec) == Walk(nal, Last(ps), codec)
    decreases |ps|
  {
    hide Walk, Hop;
    if |ps| > 1 {
      assert Hop(nal, codec, ps[0], ps[1]);
      HopWalks(nal, codec, ps[0], ps[1]);
      var rest := ps[1..];
      forall i | 0 <= i < |rest| - 1
        ensures Hop(nal, codec, rest[i], rest[i + 1])
      {
        assert Hop(nal, codec, ps[i + 1], ps[i + 2]);
      }
      PathWalks(nal, codec, ps[1], rest);
    }
  }

  lemma HitWalks(nal: Bytes, codec: int, p: nat, s: nat)
    requires Hit(nal, codec, p, s)
    ensures s + 12 <= |nal| && p < |nal|
    ensures Walk(nal, p, codec) == if Guarded(nal, s) then Ok(Stamp(TimeOf(nal[s..s + 12]), nal[s])) else Err(EBADMSG)
  {
    hide Walk, VarIs, Uuid, Stops, TimeOf;
    var q: nat, size: nat :| Carries(nal, codec, p, s, q, size);
    var d := s - 16;
    WalkAt(nal, codec, p, q, UDU, d, size);
    SubSlice(nal, d, size, 0, 16);
    assert Matches(codec, UDU, nal[d..d + size]);
    StampTime(nal, s, d + size);
  }

  lemma StampTime(nal: Bytes, s: nat, t: nat)
    requires s + 12 <= t <= |nal|
    ensures ReadStamp(nal[s..t]) == if Guarded(nal, s) then Ok(Stamp(TimeOf(nal[s..s + 12]), nal[s])) else Err(EBADMSG)
  {
  }

  lemma FoundWalks(nal: Bytes, codec: int, p: nat, s: nat)
    requires p <= |nal| && Found(nal, codec, p, s)
    ensures Walk(nal, p, codec) == if Guarded(nal, s) then Ok(Stamp(TimeOf(nal[s..s + 12]), nal[s])) else Err(EBADMSG)
  {
    hide Path, Hit, Walk, Guarded, TimeOf;
    var ps :| Leads(nal, codec, p, ps, s);
    PathIsNotEmpty(nal, codec, p, ps);
    PathWalks(nal, codec, p, ps);
    HitWalks(nal, codec, Last(ps), s);
  }

  lemma PathIsNotEmpty(nal: Bytes, codec: int, p: nat, ps: seq<nat>)
    requires Path(nal, codec, p, ps)
    ensures |ps| > 0
  {
  }

  // ---- and finds whatever is there

  lemma HitIsFound(nal: Bytes, codec: int, p: nat, s: nat)
    requires Hit(nal, codec, p, s)
    ensures Found(nal, codec, p, s)
  {
    HitWalks(nal, codec, p, s);
    hide Hit;
    assert Last([p]) == p;
    assert Leads(nal, codec, p, [p], s);
  }

  lemma HopThenFound(nal: Bytes, codec: int, p: nat, t: nat, s: nat)
    requires Hop(nal, codec, p, t) && Found(nal, codec, t, s)
    ensures Found(nal, codec, p, s)
  {
    hide Hop, Hit;
    var ps :| Leads(nal, codec, t, ps, s);
    var longer := [p] + ps;
    forall i | 0 <= i < |longer| - 1
      ensures Hop(nal, codec, longer[i], longer[i + 1])
    {
      if i > 0 {
        assert Hop(nal, codec, ps[i - 1], ps[i]);
      }
    }
    assert Last(longer) == Last(ps);
    assert Leads(nal, codec, p, longer, s);
  }

  lemma {:induction false} WalkFinds(nal: Bytes, codec: int, p: nat)
    requires p <= |nal|
    ensures Walk(nal, p, codec) == Err(ENOENT) || exists s: nat :: Found(nal, codec, p, s)
    decreases |nal| - p
  {
    hide *;
    if Stops(nal, p) {
      StopWalk(nal, codec, p);
    } else {
      var next := WalkOnce(nal, codec, p);
      if next.Some? {
        WalkFinds(nal, codec, next.value);
        if s: nat :| Found(nal, codec, next.value, s) {
          HopThenFound(nal, codec, p, next.value, s);
        }
      }
    }
  }

  lemma StopWalk(nal: Bytes, codec: int, p: nat)
    requires p <= |nal| && Stops(nal, p)
    ensures Walk(nal, p, codec) == Err(ENOENT)
  {
    hide VarAt, ZeroFrom;
  }

  // One message: the search goes on behind it, or ends here.
  lemma WalkOnce(nal: Bytes, codec: int, p: nat) returns (next: Option<nat>)
    requires p <= |nal| && !Stops(nal, p)
    ensures match next
            case Some(t) => p < t <= |nal| && Hop(nal, codec, p, t) && Walk(nal, p, codec) == Walk(nal, t, codec)
            case None => Walk(nal, p, codec) == Err(ENOENT) || exists s: nat :: Found(nal, codec, p, s)
  {
    hide *;
    next := None;
    var kind := VarAt(nal, p, 0);
    VarAtIs(nal, p, 0, p);
    if kind.Ok? {
      var q := kind.value.0;
      var size := VarAt(nal, q, 0);
      VarAtIs(nal, q, 0, q);
      if size.Ok? {
        next := WalkMessageAt(nal, codec, p, q, kind.value.1, size.value.0, size.value.1);
        return;
      }
    }
    StuckWalk(nal, codec, p);
  }

  lemma WalkMessageAt(nal: Bytes, codec: int, p: nat, q: nat, kind: nat, d: nat, size: nat) returns (next: Option<nat>)
    requires !Stops(nal, p) && VarIs(nal, p, q, kind) && VarIs(nal, q, d, size)
    ensures p < d <= |nal|
    ensures match next
            case Some(t) => p < t <= |nal| && Hop(nal, codec, p, t) && Walk(nal, p, codec) == Walk(nal, t, codec)
            case None => Walk(nal, p, codec) == Err(ENOENT) || exists s: nat :: Found(nal, codec, p, s)
  {
    Increases(nal, p, q, kind);
    Increases(nal, q, d, size);
    assert MessageAt(nal, p, q, kind, d, size);
    hide *;
    WalkFindsAt(nal, codec, p, q, kind, d, size);
    next := None;
    if d + size <= |nal| && !Matches(codec, kind, nal[d..d + size]) {
      next := Some(d + size);
    }
  }

  lemma Increases(nal: Bytes, p: nat, q: nat, v: nat)
    requires VarIs(nal, p, q, v)
    ensures p < q <= |nal|
  {
  }

  lemma StuckWalk(nal: Bytes, codec: int, p: nat)
    requires p <= |nal|
    requires VarAt(nal, p, 0) == Err(ENOENT)
             || (VarAt(nal, p, 0).Ok? && VarAt(nal, VarAt(nal, p, 0).value.0, 0) == Err(ENOENT))
    ensures Walk(nal, p, codec) == Err(ENOENT)
  {
    hide VarAt, ZeroFrom;
  }

  lemma WalkFindsAt(nal: Bytes, codec: int, p: nat, q: nat, kind: nat, d: nat, size: nat)
    requires MessageAt(nal, p, q, kind, d, size)
    ensures d <= |nal|
    ensures d + size > |nal| ==> Walk(nal, p, codec) == Err(ENOENT)
    ensures d + size <= |nal| && !Matches(codec, kind, nal[d..d + size]) ==>
              Hop(nal, codec, p, d + size) && Walk(nal, p, codec) == Walk(nal, d + size, codec)
    ensures d + size <= |nal| && Matches(codec, kind, nal[d..d + size]) ==> Found(nal, codec, p, d + 16)
  {
    hide *;
    WalkAt(nal, codec, p, q, kind, d, size);
    if d + size <= |nal| {
      if Matches(codec, kind, nal[d..d + size]) {
        MatchHits(nal, codec, p, q, kind, d, size);
        HitIsFound(nal, codec, p, d + 16);
      } else {
        OtherHops(nal, codec, p, q, kind, d, size);
      }
    }
  }

  lemma OtherHops(nal: Bytes, codec: int, p: nat, q: nat, kind: nat, d: nat, size: nat)
    requires MessageAt(nal, p, q, kind, d, size) && d + size <= |nal|
    requires !Matches(codec, kind, nal[d..d + size])
    ensures Hop(nal, codec, p, d + size)
  {
    hide MessageAt, Matches;
    assert Passes(nal, codec, p, d + size, q, kind, d, size);
  }

  lemma MatchHits(nal: Bytes, codec: int, p: nat, q: nat, kind: nat, d: nat, size: nat)
    requires MessageAt(nal, p, q, kind, d, size) && d + size <= |nal|
    requires Matches(codec, kind, nal[d..d + size])
    ensures Hit(nal, codec, p, d + 16)
  {
    hide MessageAt, Uuid;
    SubSlice(nal, d, size, 0, 16);
    assert Carries(nal, codec, p, d + 16, q, size);
  }

  /** The answers, for every byte string that is an SEI NAL unit. EBADMSG means that a
      chain of complete messages that are no time stamps leads to a complete message with
      the identifier and a wrong guard byte; a time stamp means the same with the guards
      in place, and is read from that message; in all other cases the answer is ENOENT. */
  lemma ParseAnswers(nal: Bytes, codec: int)
    requires Known(codec) && IsSei(nal, codec)
    ensures Parse(nal, codec) == Err(EBADMSG) <==>
              exists s: nat :: Found(nal, codec, HeaderLen(codec), s) && !Guarded(nal, s)
    ensures Parse(nal, codec).Ok? <==>
              exists s: nat :: Found(nal, codec, HeaderLen(codec), s) && Guarded(nal, s)
    ensures forall s: nat | Found(nal, codec, HeaderLen(codec), s) && Guarded(nal, s) ::
              Parse(nal, codec) == Ok(Stamp(TimeOf(nal[s..s + 12]), nal[s]))
    ensures Parse(nal, codec) == Err(ENOENT) <==> forall s: nat :: !Found(nal, codec, HeaderLen(codec), s)
  {
    HeaderFits(nal, codec);
    hide Found, Walk, TimeOf;
    var p := HeaderLen(codec);
    WalkFinds(nal, codec, p);
    forall s: nat | Found(nal, codec, p, s)
      ensures s + 12 <= |nal|
      ensures Walk(nal, p, codec) == if Guarded(nal, s) then Ok(Stamp(TimeOf(nal[s..s + 12]), nal[s])) else Err(EBADMSG)
    {
      FoundFits(nal, codec, p, s);
      FoundWalks(nal, codec, p, s);
    }
  }

  lemma HeaderFits(nal: Bytes, codec: int)
    requires Known(codec) && IsSei(nal, codec)
    ensures HeaderLen(codec) <= |nal| && Parse(nal, codec) == Walk(nal, HeaderLen(codec), codec)
  {
    hide Walk;
  }

  lemma FoundFits(nal: Bytes, codec: int, p: nat, s: nat)
    requires Found(nal, codec, p, s)
    ensures s + 12 <= |nal|
  {
  }

  // ---- messages cut short

  /** A message that declares more bytes than there are ends the search: the answer is
      ENOENT, whatever its type and identifier. */
  lemma TruncatedIsAbsent(nal: Bytes, codec: int, ps: seq<nat>, q: nat, kind: nat, d: nat, size: nat)
    requires Known(codec) && IsSei(nal, codec) && Path(nal, codec, HeaderLen(codec), ps)
    requires MessageAt(nal, Last(ps), q, kind, d, size) && d + size > |nal|
    ensures Parse(nal, codec) == Err(ENOENT)
  {
    HeaderFits(nal, codec);
    hide Path, MessageAt, Walk;
    PathIsNotEmpty(nal, codec, HeaderLen(codec), ps);
    PathWalks(nal, codec, HeaderLen(codec), ps);
    WalkAt(nal, codec, Last(ps), q, kind, d, size);
  }

  /** A message too short for a time stamp is walked over, whatever its identifier. */
  lemma ShortIsSkipped(nal: Bytes, codec: int, p: nat, q: nat, kind: nat, d: nat, size: nat)
    requires CompleteAt(nal, p, q, kind, d, size) && size < PAYLOAD_SIZE
    ensures Hop(nal, codec, p, d + size)
  {
    hide MessageAt, Uuid;
    assert Passes(nal, codec, p, d + size, q, kind, d, size);
  }

  /** A time stamp NAL unit cut inside its twelve stamp bytes has the identifier and is
      malformed, and is answered as if it were no time stamp. */
  lemma TruncatedStamp(codec: int, tail: Bytes)
    requires Known(codec) && |tail| < 12
    ensures Parse(Header(codec) + [0x05, 0x1c] + Uuid(codec) + tail, codec) == Err(ENOENT)
  {
    var nal := Header(codec) + [0x05, 0x1c] + Uuid(codec) + tail;
    var p := HeaderLen(codec);
    hide Uuid, Walk, Header, IsSei;
    HeaderIsSei(codec);
    Regrouped(codec, tail);
    SeiByHeader(Header(codec), [0x05, 0x1c] + Uuid(codec) + tail, codec);
    assert nal[p] == 0x05 && nal[p + 1] == 0x1c;
    assert MessageAt(nal, p, p + 1, UDU, p + 2, PAYLOAD_SIZE);
    assert Path(nal, codec, p, [p]) && Last([p]) == p;
    TruncatedIsAbsent(nal, codec, [p], p + 1, UDU, p + 2, PAYLOAD_SIZE);
  }

  lemma Regrouped(codec: int, tail: Bytes)
    ensures Header(codec) + [0x05, 0x1c] + Uuid(codec) + tail == Header(codec) + ([0x05, 0x1c] + Uuid(codec) + tail)
  {
    hide Header, Uuid;
  }
}
