/**
 Quiet hours: the next instant a message may go out, against the pointwise test
 of whether an instant is quiet.
 */
module QuietHours {
  import opened ZonedTime
  import opened ClockChange

  /** Local wall-clock minutes of day; wrapping past midnight is expected. */
  datatype QuietWindow = QuietWindow(start: int, end: int)

  predicate ValidQuiet(q: QuietWindow) {
    0 <= q.start < MINUTES_PER_DAY && 0 <= q.end < MINUTES_PER_DAY
  }

  /** The window read on the minute of day alone. An empty window is never quiet. */
  predicate QuietMinute(q: QuietWindow, now: int) {
    if q.start == q.end then false
    else if q.start < q.end then q.start <= now < q.end
    else now >= q.start || now < q.end
  }

  predicate IsQuiet(z: Zone, q: QuietWindow, t: Instant) {
    QuietMinute(q, MinuteOf(z, t))
  }

  function Max(a: int, b: int): int {
    if a > b then a else b
  }

  function Jump(z: Zone, q: QuietWindow, t: Instant): Instant {
    t + Max((q.end - MinuteOf(z, t) + MINUTES_PER_DAY) % MINUTES_PER_DAY, 1) * MINUTE
  }

  /** Jump to the window's end as the clock has it, again if that is still quiet, at most `attempts` times. */
  function OutsideFrom(z: Zone, q: QuietWindow, cursor: Instant, attempts: nat): Instant
    decreases attempts
  {
    if attempts == 0 then cursor
    else if !IsQuiet(z, q, Jump(z, q, cursor)) then Jump(z, q, cursor)
    else OutsideFrom(z, q, Jump(z, q, cursor), attempts - 1)
  }

  function Outside(z: Zone, q: QuietWindow, t: Instant): Instant {
    if IsQuiet(z, q, t) then OutsideFrom(z, q, t, 3) else t
  }

  method NextInstantOutsideQuietHours(z: Zone, q: QuietWindow, t: Instant) returns (r: Instant)
    requires ValidQuiet(q)
    ensures r == Outside(z, q, t)
  {
    if !IsQuiet(z, q, t) {
      return t;
    }
    var cursor := t;
    var attempt := 0;
    while attempt < 3
      invariant 0 <= attempt <= 3
      invariant OutsideFrom(z, q, cursor, 3 - attempt) == Outside(z, q, t)
    {
      var now := MinuteOf(z, cursor);
      var delta := (q.end - now + MINUTES_PER_DAY) % MINUTES_PER_DAY;
      cursor := cursor + Max(delta, 1) * MINUTE;
      if !IsQuiet(z, q, cursor) {
        return cursor;
      }
      attempt := attempt + 1;
    }
    return cursor;
  }

  /** How many minutes the window lasts, past midnight or not. */
  function Length(q: QuietWindow): int {
    (q.end - q.start) % MINUTES_PER_DAY
  }

  /** A minute is quiet exactly when fewer minutes have passed since the window's start than the window lasts. */
  lemma QuietWithinLength(q: QuietWindow, now: int)
    requires ValidQuiet(q) && 0 <= now < MINUTES_PER_DAY
    ensures QuietMinute(q, now) <==> (now - q.start) % MINUTES_PER_DAY < (q.end - q.start) % MINUTES_PER_DAY
  {
  }

  /** The window opens at `begin`, as the wall clock reads it. */
  predicate Opens(z: Zone, q: QuietWindow, begin: Instant) {
    Local(z, begin) % DAY == q.start * MINUTE
  }

  /** In any zone an instant is quiet exactly when the wall clock is less than the window's length past its start. */
  lemma QuietOnTheClock(z: Zone, q: QuietWindow, t: Instant)
    requires ValidQuiet(q)
    ensures IsQuiet(z, q, t) <==> (Local(z, t) - q.start * MINUTE) % DAY < Length(q) * MINUTE
  {
    hide QuietMinute, Length;
    LengthInDay(q);
    SinceStart(Local(z, t), q.start);
    QuietWithinLength(q, MinuteOf(z, t));
  }

  /**
   Where the offset has not moved for a day, an instant is quiet exactly when some instant the window opens at lies
   behind it by less than the window lasts.
   */
  lemma QuietSinceStart(z: Zone, q: QuietWindow, t: Instant)
    requires ValidQuiet(q) && forall u | t - DAY < u <= t :: z(u) == z(t)
    ensures IsQuiet(z, q, t) <==> exists begin :: Opens(z, q, begin) && begin <= t < begin + Length(q) * MINUTE
  {
    hide IsQuiet, Length;
    LengthInDay(q);
    QuietOnTheClock(z, q, t);
    var since := (Local(z, t) - q.start * MINUTE) % DAY;
    SinceStart(Local(z, t), q.start);
    assert Opens(z, q, t - since);
    forall begin | Opens(z, q, begin) && t - DAY < begin <= t
      ensures begin == t - since
    {
      SameReading(Local(z, begin), Local(z, t - since));
    }
  }

  lemma LengthInDay(q: QuietWindow)
    ensures 0 <= Length(q) < MINUTES_PER_DAY && Length(q) == (q.end - q.start) % MINUTES_PER_DAY
  {
  }

  lemma SameReading(a: int, b: int)
    requires a % DAY == b % DAY
    ensures a == b || a - b >= DAY || b - a >= DAY
  {
  }

  /** What a wall clock reads since its last reading of a whole minute of day. */
  lemma SinceStart(l: int, start: int)
    requires 0 <= start < MINUTES_PER_DAY
    ensures (l - (l - start * MINUTE) % DAY) % DAY == start * MINUTE
    ensures (l - start * MINUTE) % DAY / MINUTE == (l % DAY / MINUTE - start) % MINUTES_PER_DAY
    ensures 0 <= l % DAY / MINUTE < MINUTES_PER_DAY
  {
    var since := (l - start * MINUTE) % DAY;
    var k := (l - start * MINUTE) / DAY;
    assert l - since == k * DAY + start * MINUTE;
    var rest := l % DAY;
    assert since == if rest >= start * MINUTE then rest - start * MINUTE else rest - start * MINUTE + DAY;
  }

  /** The offset does not move in the day after `t`. */
  ghost predicate Steady(z: Zone, t: Instant) {
    forall u :: t <= u < t + DAY ==> z(u) == z(t)
  }

  /** No instant from `t` on is outside quiet hours earlier than `r`. */
  ghost predicate IsLeastOutside(z: Zone, q: QuietWindow, t: Instant, r: Instant) {
    t <= r && !IsQuiet(z, q, r) && forall u :: t <= u < r ==> IsQuiet(z, q, u)
  }

  /** Under one offset the minute of day just advances with time, around the clock. */
  lemma MinuteAdvances(z: Zone, t: Instant, u: Instant)
    requires z(u) == z(t) && t <= u
    ensures MinuteOf(z, u) == (MinuteOf(z, t) + (t % MINUTE + (u - t)) / MINUTE) % MINUTES_PER_DAY
  {
    var l, k := Local(z, t), u - t;
    assert Local(z, u) == l + k && l % MINUTE == t % MINUTE;
    MinuteIndex(l);
    MinuteIndex(l + k);
    assert (l + k) / MINUTE == l / MINUTE + (l % MINUTE + k) / MINUTE;
    Wrap(l / MINUTE, (l % MINUTE + k) / MINUTE);
  }

  lemma MinuteIndex(l: int)
    ensures l % DAY / MINUTE == l / MINUTE % MINUTES_PER_DAY
  {
    var day, rest := l / DAY, l % DAY;
    assert l / MINUTE == day * MINUTES_PER_DAY + rest / MINUTE;
    assert 0 <= rest / MINUTE < MINUTES_PER_DAY;
  }

  lemma Wrap(a: int, b: int)
    ensures (a + b) % MINUTES_PER_DAY == (a % MINUTES_PER_DAY + b) % MINUTES_PER_DAY
  {
  }

  /** From a quiet minute, every minute short of the window's end is quiet, and the end is not. */
  lemma QuietUntilEnd(q: QuietWindow, now: int, k: int)
    requires ValidQuiet(q) && QuietMinute(q, now) && 0 <= now < MINUTES_PER_DAY
    requires 0 <= k <= (q.end - now + MINUTES_PER_DAY) % MINUTES_PER_DAY
    ensures 0 < (q.end - now + MINUTES_PER_DAY) % MINUTES_PER_DAY
    ensures (now + (q.end - now + MINUTES_PER_DAY) % MINUTES_PER_DAY) % MINUTES_PER_DAY == q.end
    ensures QuietMinute(q, (now + k) % MINUTES_PER_DAY) <==> k < (q.end - now + MINUTES_PER_DAY) % MINUTES_PER_DAY
  {
  }

  lemma MinuteInDay(z: Zone, t: Instant)
    ensures 0 <= MinuteOf(z, t) < MINUTES_PER_DAY
  {
  }

  /** While the offset is the one at `t`, an instant up to the jump's landing is quiet until the landing minute. */
  lemma QuietUpToLanding(z: Zone, q: QuietWindow, t: Instant, u: Instant)
    requires ValidQuiet(q) && IsQuiet(z, q, t) && t <= u <= Jump(z, q, t) && z(u) == z(t)
    ensures IsQuiet(z, q, u) <==> u < Jump(z, q, t) - t % MINUTE
    ensures u == Jump(z, q, t) ==> MinuteOf(z, u) == q.end
  {
    hide MinuteOf, QuietMinute;
    var now := MinuteOf(z, t);
    MinuteInDay(z, t);
    var delta := (q.end - now + MINUTES_PER_DAY) % MINUTES_PER_DAY;
    QuietUntilEnd(q, now, delta);
    var k := (t % MINUTE + (u - t)) / MINUTE;
    MinuteAdvances(z, t, u);
    assert k < delta <==> u < t + delta * MINUTE - t % MINUTE;
    assert k <= delta;
    QuietUntilEnd(q, now, k);
  }

  /**
   A jump from a quiet instant that meets no clock change lands on the window's end, over nothing but quiet
   minutes.
   */
  lemma JumpLands(z: Zone, q: QuietWindow, t: Instant)
    requires ValidQuiet(q) && IsQuiet(z, q, t)
    requires forall u :: t <= u <= Jump(z, q, t) ==> z(u) == z(t)
    ensures t < Jump(z, q, t) < t + DAY && MinuteOf(z, Jump(z, q, t)) == q.end && !IsQuiet(z, q, Jump(z, q, t))
    ensures forall u :: t <= u < Jump(z, q, t) - t % MINUTE ==> IsQuiet(z, q, u)
    ensures forall u :: Jump(z, q, t) - t % MINUTE <= u <= Jump(z, q, t) ==> !IsQuiet(z, q, u)
  {
    hide MinuteOf, QuietMinute;
    JumpReach(z, q, t);
    forall u | t <= u <= Jump(z, q, t)
      ensures IsQuiet(z, q, u) <==> u < Jump(z, q, t) - t % MINUTE
      ensures u == Jump(z, q, t) ==> MinuteOf(z, u) == q.end
    {
      QuietUpToLanding(z, q, t, u);
    }
  }

  lemma JumpReach(z: Zone, q: QuietWindow, t: Instant)
    ensures t < Jump(z, q, t) < t + DAY
  {
  }

  /**
   Away from clock changes the result is exact: least among all instants when
   nothing moved or `t` is on a whole minute, less than a day ahead, and final.
   */
  lemma OutsideIsLeast(z: Zone, q: QuietWindow, t: Instant)
    requires ValidQuiet(q) && Steady(z, t)
    ensures var r := Outside(z, q, t);
            && t <= r < t + DAY && !IsQuiet(z, q, r) && Outside(z, q, r) == r
            && (IsLeastOutside(z, q, t, r) <==> r == t || t % MINUTE == 0)
            && (forall u :: t <= u < FloorMinute(r) ==> IsQuiet(z, q, u))
  {
    hide MinuteOf, QuietMinute;
    if IsQuiet(z, q, t) {
      JumpReach(z, q, t);
      JumpLands(z, q, t);
      var r := Jump(z, q, t);
      assert r % MINUTE == t % MINUTE;
      if t % MINUTE != 0 {
        assert !IsQuiet(z, q, r - 1);
      }
    }
  }

  // ----- Across a clock change -----

  /** Minutes of the day that are not quiet. */
  function Loud(q: QuietWindow): int {
    if q.start == q.end then MINUTES_PER_DAY else (q.start - q.end + MINUTES_PER_DAY) % MINUTES_PER_DAY
  }

  lemma LoudAfterEnd(q: QuietWindow, k: int)
    requires ValidQuiet(q) && 0 <= k < Loud(q)
    ensures !QuietMinute(q, (q.end + k) % MINUTES_PER_DAY)
  {
  }

  lemma MinuteShifts(z: Zone, t: Instant, u: Instant)
    ensures MinuteOf(z, u)
        == (MinuteOf(z, t) + (Local(z, t) % MINUTE + (Local(z, u) - Local(z, t))) / MINUTE) % MINUTES_PER_DAY
  {
    var l, k := Local(z, t), Local(z, u) - Local(z, t);
    MinuteIndex(l);
    MinuteIndex(l + k);
    assert (l + k) / MINUTE == l / MINUTE + (l % MINUTE + k) / MINUTE;
    Wrap(l / MINUTE, (l % MINUTE + k) / MINUTE);
  }

  /**
   Two passes are enough whichever way the clock is moved: with one change the
   result is never quiet.
   */
  lemma OutsideIsOutside(z: Zone, q: QuietWindow, a: int, b: int, change: Instant, t: Instant)
    requires ValidQuiet(q) && ChangesOnce(z, a, b, change)
    ensures IsQuiet(z, q, t) ==> Outside(z, q, t) == OutsideFrom(z, q, t, 2)
    ensures !IsQuiet(z, q, Outside(z, q, t))
  {
    hide MinuteOf, QuietMinute;
    if IsQuiet(z, q, t) {
      JumpReach(z, q, t);
      var r := Jump(z, q, t);
      if r < change || change <= t {
        JumpLands(z, q, t);
      } else if IsQuiet(z, q, r) {
        JumpReach(z, q, r);
        JumpLands(z, q, r);
        assert OutsideFrom(z, q, t, 2) == OutsideFrom(z, q, r, 1) == Jump(z, q, r);
        assert OutsideFrom(z, q, t, 3) == OutsideFrom(z, q, r, 2) == Jump(z, q, r);
      }
    }
  }

  lemma LandsLater(z: Zone, q: QuietWindow, a: int, b: int, change: Instant, t: Instant, u: Instant)
    requires ValidQuiet(q) && ChangesOnce(z, a, b, change) && IsQuiet(z, q, t) && t % MINUTE == 0
    requires 0 < b - a < Loud(q)
    requires t < change <= u <= Jump(z, q, t) <= u + (b - a) * MINUTE
    ensures !IsQuiet(z, q, u)
  {
    hide MinuteOf, QuietMinute, Loud;
    var now := MinuteOf(z, t);
    MinuteInDay(z, t);
    var delta := (q.end - now + MINUTES_PER_DAY) % MINUTES_PER_DAY;
    QuietUntilEnd(q, now, delta);
    var k := ((b - a) * MINUTE - (Jump(z, q, t) - u)) / MINUTE;
    assert Local(z, t) % MINUTE == 0;
    assert Local(z, u) - Local(z, t) == delta * MINUTE + ((b - a) * MINUTE - (Jump(z, q, t) - u));
    MinuteShifts(z, t, u);
    assert (Local(z, u) - Local(z, t)) / MINUTE == delta + k;
    Wrap(now + delta, k);
    if k < b - a {
      LoudAfterEnd(q, k);
    } else {
      LoudAfterEnd(q, b - a);
    }
  }

  /**
   A clock put forward during the jump is overshot: the promise of the earliest
   instant holds exactly when the change is not strictly inside the jump.
   */
  lemma ForwardChangeOvershoots(z: Zone, q: QuietWindow, a: int, b: int, change: Instant, t: Instant)
    requires ValidQuiet(q) && ChangesOnce(z, a, b, change) && IsQuiet(z, q, t) && t % MINUTE == 0
    requires 0 < b - a < Loud(q)
    ensures IsLeastOutside(z, q, t, Outside(z, q, t)) <==> !(t < change < Jump(z, q, t))
  {
    hide MinuteOf, QuietMinute, Loud, Jump;
    JumpReach(z, q, t);
    var r := Jump(z, q, t);
    if t < change <= r {
      LandsLater(z, q, a, b, change, t, r);
      assert Outside(z, q, t) == r;
      if change < r {
        LandsLater(z, q, a, b, change, t, Max(change, r - (b - a) * MINUTE));
      } else {
        forall u | t <= u < r
          ensures IsQuiet(z, q, u)
        {
          QuietUpToLanding(z, q, t, u);
        }
      }
    } else {
      JumpLands(z, q, t);
    }
  }

  // ----- Exactly when the promise of the earliest instant is kept -----

  /** The minute at whose start the jump's window ends, if the offset stays what it is at `t`. */
  function Landing(z: Zone, q: QuietWindow, t: Instant): Instant {
    Jump(z, q, t) - t % MINUTE
  }

  /**
   What a caller could check beforehand: a change strictly inside the jump falls on a quiet reading, from
   which the clock then takes at least as long to reach the window's end as the jump does.
   */
  predicate ChangeHarmless(z: Zone, q: QuietWindow, change: Instant, t: Instant) {
    t < change < Jump(z, q, t) ==> IsQuiet(z, q, change) && Jump(z, q, t) <= Landing(z, q, change)
  }

  /** After the change one offset holds, so quiet is known up to the landing. */
  lemma QuietAfterChange(z: Zone, q: QuietWindow, a: int, b: int, change: Instant, t: Instant)
    requires ValidQuiet(q) && ChangesOnce(z, a, b, change) && change <= t && IsQuiet(z, q, t)
    ensures forall u :: t <= u <= Jump(z, q, t) ==> (IsQuiet(z, q, u) <==> u < Landing(z, q, t))
    ensures t < Landing(z, q, t) <= Jump(z, q, t) && Landing(z, q, t) % MINUTE == 0
  {
    hide MinuteOf, QuietMinute;
    LandingReach(z, q, t);
    forall u | t <= u <= Jump(z, q, t)
      ensures IsQuiet(z, q, u) <==> u < Landing(z, q, t)
    {
      QuietUpToLanding(z, q, t, u);
    }
  }

  lemma LandingReach(z: Zone, q: QuietWindow, t: Instant)
    ensures t < Landing(z, q, t) <= Jump(z, q, t) && Landing(z, q, t) % MINUTE == 0
    ensures Jump(z, q, t) % MINUTE == t % MINUTE
  {
    hide MinuteOf;
  }

  /** Up to the change one offset holds too. */
  lemma QuietBeforeChange(z: Zone, q: QuietWindow, a: int, b: int, change: Instant, t: Instant)
    requires ValidQuiet(q) && ChangesOnce(z, a, b, change) && t < change && IsQuiet(z, q, t)
    ensures forall u :: t <= u <= Jump(z, q, t) && u < change ==> (IsQuiet(z, q, u) <==> u < Landing(z, q, t))
  {
    hide MinuteOf, QuietMinute;
    forall u | t <= u <= Jump(z, q, t) && u < change
      ensures IsQuiet(z, q, u) <==> u < Landing(z, q, t)
    {
      QuietUpToLanding(z, q, t, u);
    }
  }

  lemma OutsideIsJumps(z: Zone, q: QuietWindow, a: int, b: int, change: Instant, t: Instant)
    requires ValidQuiet(q) && ChangesOnce(z, a, b, change) && IsQuiet(z, q, t)
    ensures Outside(z, q, t) == if IsQuiet(z, q, Jump(z, q, t)) then Jump(z, q, Jump(z, q, t)) else Jump(z, q, t)
    ensures IsQuiet(z, q, Jump(z, q, t)) ==> t < change <= Jump(z, q, t)
  {
    hide MinuteOf, QuietMinute, Jump;
    OutsideIsOutside(z, q, a, b, change, t);
    JumpReach(z, q, t);
    var r := Jump(z, q, t);
    assert OutsideFrom(z, q, t, 2) == if IsQuiet(z, q, r) then OutsideFrom(z, q, r, 1) else r;
    assert OutsideFrom(z, q, r, 1) == Jump(z, q, r);
    if r < change || change <= t {
      JumpLands(z, q, t);
    }
  }

  /** From part of a minute the result is late by that part, if by nothing more. */
  lemma PartOfMinuteOvershoots(z: Zone, q: QuietWindow, a: int, b: int, change: Instant, t: Instant)
    requires ValidQuiet(q) && ChangesOnce(z, a, b, change) && IsQuiet(z, q, t) && t % MINUTE != 0
    ensures !IsLeastOutside(z, q, t, Outside(z, q, t))
  {
    hide MinuteOf, QuietMinute, Jump, Landing;
    var r := Jump(z, q, t);
    OutsideIsJumps(z, q, a, b, change, t);
    LandingReach(z, q, t);
    LandingReach(z, q, r);
    if IsQuiet(z, q, r) {
      QuietAfterChange(z, q, a, b, change, r);
      assert !IsQuiet(z, q, Landing(z, q, r));
    } else if change <= t {
      QuietAfterChange(z, q, a, b, change, t);
      assert !IsQuiet(z, q, Landing(z, q, t));
    } else if Landing(z, q, t) < change {
      QuietBeforeChange(z, q, a, b, change, t);
      assert !IsQuiet(z, q, Landing(z, q, t));
    } else if IsQuiet(z, q, change) {
      LandingReach(z, q, change);
      QuietAfterChange(z, q, a, b, change, change);
      LandsBefore(z, q, a, b, change, r);
    }
  }

  /**
   An instant after the change that is not quiet, and not on a whole minute, is later than the landing from the
   change.
   */
  lemma LandsBefore(z: Zone, q: QuietWindow, a: int, b: int, change: Instant, r: Instant)
    requires ValidQuiet(q) && ChangesOnce(z, a, b, change) && IsQuiet(z, q, change)
    requires change <= r && !IsQuiet(z, q, r) && r % MINUTE != 0
    ensures change <= Landing(z, q, change) < r && !IsQuiet(z, q, Landing(z, q, change))
  {
    hide MinuteOf, QuietMinute, Jump, Landing;
    LandingReach(z, q, change);
    QuietAfterChange(z, q, a, b, change, change);
  }

  /**
   From a whole minute, a change strictly inside the jump leaves the result the earliest exactly when it is
   harmless.
   */
  lemma ChangeInsideJump(z: Zone, q: QuietWindow, a: int, b: int, change: Instant, t: Instant)
    requires ValidQuiet(q) && ChangesOnce(z, a, b, change) && IsQuiet(z, q, t) && t % MINUTE == 0
    requires t < change < Jump(z, q, t)
    ensures IsLeastOutside(z, q, t, Outside(z, q, t))
        <==> IsQuiet(z, q, change) && Jump(z, q, t) <= Landing(z, q, change)
  {
    hide MinuteOf, QuietMinute, Jump, Landing;
    var r := Jump(z, q, t);
    OutsideIsJumps(z, q, a, b, change, t);
    LandingReach(z, q, t);
    QuietBeforeChange(z, q, a, b, change, t);
    WholeMinuteLanding(z, q, t);
    WholeMinuteLanding(z, q, r);
    LandingReach(z, q, r);
    if IsQuiet(z, q, change) {
      LandingReach(z, q, change);
      QuietAfterChange(z, q, a, b, change, change);
      var l, result := Landing(z, q, change), Outside(z, q, t);
      if IsQuiet(z, q, r) {
        QuietAfterChange(z, q, a, b, change, r);
        assert !IsQuiet(z, q, result);
      }
      assert !IsQuiet(z, q, l);
      if r <= l {
        forall u | t <= u < result
          ensures IsQuiet(z, q, u)
        {
          assert u < change || change <= u < r || r <= u;
        }
      }
    }
  }

  lemma WholeMinuteLanding(z: Zone, q: QuietWindow, t: Instant)
    ensures t % MINUTE == 0 ==> Landing(z, q, t) == Jump(z, q, t)
  {
    hide MinuteOf;
  }

  /** From a whole minute, a change anywhere else does no harm. */
  lemma ChangeOutsideJump(z: Zone, q: QuietWindow, a: int, b: int, change: Instant, t: Instant)
    requires ValidQuiet(q) && ChangesOnce(z, a, b, change) && IsQuiet(z, q, t) && t % MINUTE == 0
    requires !(t < change < Jump(z, q, t))
    ensures IsLeastOutside(z, q, t, Outside(z, q, t))
  {
    hide MinuteOf, QuietMinute, Jump, Landing;
    var r := Jump(z, q, t);
    OutsideIsJumps(z, q, a, b, change, t);
    WholeMinuteLanding(z, q, t);
    LandingReach(z, q, t);
    if change <= t {
      QuietAfterChange(z, q, a, b, change, t);
    } else {
      QuietBeforeChange(z, q, a, b, change, t);
      if IsQuiet(z, q, r) {
        WholeMinuteLanding(z, q, r);
        LandingReach(z, q, r);
        QuietAfterChange(z, q, a, b, change, r);
      }
    }
  }

  /**
   The promise of the earliest instant, across a clock change of any size and either direction and from any
   start: it is kept exactly when the start is not quiet, or is on a whole minute with the change harmless.
   */
  lemma EarliestExactly(z: Zone, q: QuietWindow, a: int, b: int, change: Instant, t: Instant)
    requires ValidQuiet(q) && ChangesOnce(z, a, b, change)
    ensures IsLeastOutside(z, q, t, Outside(z, q, t))
       <==> !IsQuiet(z, q, t) || (t % MINUTE == 0 && ChangeHarmless(z, q, change, t))
  {
    hide MinuteOf, QuietMinute, Jump, Landing, OutsideFrom;
    if IsQuiet(z, q, t) {
      if t % MINUTE != 0 {
        PartOfMinuteOvershoots(z, q, a, b, change, t);
      } else if t < change < Jump(z, q, t) {
        ChangeInsideJump(z, q, a, b, change, t);
      } else {
        ChangeOutsideJump(z, q, a, b, change, t);
      }
    }
  }

  /**
   A clock put back by no more than the loud part of the day: the change is harmless unless it falls on a loud
   reading.
   */
  lemma BackwardChangeHarmless(z: Zone, q: QuietWindow, a: int, b: int, change: Instant, t: Instant)
    requires ValidQuiet(q) && ChangesOnce(z, a, b, change) && IsQuiet(z, q, t) && t % MINUTE == 0
    requires 0 < a - b <= Loud(q)
    ensures IsLeastOutside(z, q, t, Outside(z, q, t)) <==> !(t < change < Jump(z, q, t)) || IsQuiet(z, q, change)
  {
    hide MinuteOf, QuietMinute, Jump, Landing, OutsideFrom, Loud;
    EarliestExactly(z, q, a, b, change, t);
    if t < change < Jump(z, q, t) && IsQuiet(z, q, change) {
      LandsNoEarlier(z, q, a, b, change, t);
    }
  }

  /** From a quiet minute the window's end is no further than the window is long. */
  lemma QuietWithinWindow(q: QuietWindow, now: int)
    requires ValidQuiet(q) && QuietMinute(q, now) && 0 <= now < MINUTES_PER_DAY
    ensures (q.end - now + MINUTES_PER_DAY) % MINUTES_PER_DAY + Loud(q) <= MINUTES_PER_DAY
  {
  }

  /** What the clock shows at the change, from what it shows on a whole minute before. */
  lemma ReadingAtChange(z: Zone, a: int, b: int, change: Instant, t: Instant)
    requires ChangesOnce(z, a, b, change) && t % MINUTE == 0 && t < change
    ensures MinuteOf(z, change) == (MinuteOf(z, t) + ((change - t) / MINUTE - (a - b))) % MINUTES_PER_DAY
    ensures change - change % MINUTE == t + (change - t) / MINUTE * MINUTE
  {
    hide MinuteOf;
    assert Local(z, t) % MINUTE == 0;
    assert (Local(z, change) - Local(z, t)) / MINUTE == (change - t) / MINUTE - (a - b);
    MinuteShifts(z, t, change);
  }

  lemma LandsNoEarlier(z: Zone, q: QuietWindow, a: int, b: int, change: Instant, t: Instant)
    requires ValidQuiet(q) && ChangesOnce(z, a, b, change) && IsQuiet(z, q, t) && t % MINUTE == 0
    requires 0 < a - b <= Loud(q) && t < change < Jump(z, q, t) && IsQuiet(z, q, change)
    ensures Jump(z, q, t) <= Landing(z, q, change)
  {
    hide MinuteOf, QuietMinute, Loud, ChangesOnce;
    var now, reset := MinuteOf(z, t), MinuteOf(z, change);
    var gone := (change - t) / MINUTE;
    MinuteInDay(z, t);
    MinuteInDay(z, change);
    QuietWithinWindow(q, now);
    QuietUntilEnd(q, now, 0);
    QuietUntilEnd(q, reset, 0);
    ReadingAtChange(z, a, b, change, t);
    DistanceLeft(q.end, now, gone - (a - b));
    var delta, left := (q.end - now + MINUTES_PER_DAY) % MINUTES_PER_DAY,
        (q.end - reset + MINUTES_PER_DAY) % MINUTES_PER_DAY;
    assert left == (delta - gone + (a - b)) % MINUTES_PER_DAY && 0 < left;
    assert 0 <= gone < delta && delta + (a - b) <= MINUTES_PER_DAY;
    assert left == delta - gone + (a - b);
    assert Landing(z, q, change) == t + gone * MINUTE + left * MINUTE;
  }

  lemma DistanceLeft(end: int, now: int, moved: int)
    ensures (end - (now + moved) % MINUTES_PER_DAY + MINUTES_PER_DAY) % MINUTES_PER_DAY
         == ((end - now + MINUTES_PER_DAY) % MINUTES_PER_DAY - moved) % MINUTES_PER_DAY
  {
  }

  /**
   Put back from 01:00 to midnight during a window that begins at 01:30: the clock leaves the window
   at the change, and the result is seven hours later.
   */
  lemma BackwardChangeOvershoots(z: Zone)
    requires ChangesOnce(z, 60, 0, 60 * MINUTE)
    ensures var q, t := QuietWindow(90, 480), 40 * MINUTE;
            && IsQuiet(z, q, t) && !IsQuiet(z, q, 60 * MINUTE)
            && Outside(z, q, t) == 480 * MINUTE && !IsLeastOutside(z, q, t, Outside(z, q, t))
  {
    var q, t := QuietWindow(90, 480), 40 * MINUTE;
    assert MinuteOf(z, t) == 100 && Jump(z, q, t) == 420 * MINUTE;
    assert MinuteOf(z, 420 * MINUTE) == 420 && Jump(z, q, 420 * MINUTE) == 480 * MINUTE;
    assert MinuteOf(z, 480 * MINUTE) == 480;
    OutsideIsJumps(z, q, 60, 0, 60 * MINUTE, t);
  }
}
