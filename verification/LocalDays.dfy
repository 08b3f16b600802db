/**
 The half-open interval of instants that make up one local calendar day.
 */
module LocalDays {
  import opened ZonedTime
  import opened ClockChange

  /** Local midnight at the start of a day, as the probe finds it. */
  function Midnight(z: Zone, day: int): Instant {
    Resolve(z, day * DAY)
  }

  lemma AlignedReads(z: Zone, t: Instant)
    requires t % MINUTE == 0
    ensures Local(z, t) % MINUTE == 0 && FloorSecond(Local(z, t)) == FloorMinute(Local(z, t)) == Local(z, t)
  {
    assert Local(z, t) % MINUTE == 0;
    assert Local(z, t) == Local(z, t) / MINUTE * 60 * SECOND;
  }

  /** One probe, in whole minutes, is one step of the search. */
  lemma ProbeStep(z: Zone, guess: Instant, cursor: Instant, attempts: nat, minutes: int)
    requires guess % MINUTE == 0 && cursor % MINUTE == 0 && attempts > 0
    requires minutes == (FloorMinute(Local(z, cursor)) - guess) / MINUTE
    ensures minutes == 0 ==> ResolveFrom(z, guess, cursor, attempts) == cursor
    ensures minutes != 0 ==>
        ResolveFrom(z, guess, cursor, attempts) == ResolveFrom(z, guess, cursor - minutes * MINUTE, attempts - 1)
    ensures (cursor - minutes * MINUTE) % MINUTE == 0
  {
    hide Local, FloorMinute, FloorSecond;
    AlignedReads(z, cursor);
    assert minutes * MINUTE == Local(z, cursor) - guess;
  }

  lemma NoProbeLeft(z: Zone, guess: Instant, cursor: Instant)
    ensures ResolveFrom(z, guess, cursor, 0) == cursor
  {
  }

  lemma WholeDays(day: int)
    ensures day * DAY % MINUTE == 0
  {
    assert day * DAY == day * MINUTES_PER_DAY * MINUTE;
  }

  /** Guess UTC midnight, then correct by what the zone reports there, to the minute. */
  method At(z: Zone, day: int) returns (cursor: Instant)
    ensures cursor == Midnight(z, day)
  {
    hide Local, ResolveFrom, FloorMinute;
    var guess := day * DAY;
    cursor := guess;
    WholeDays(day);
    var attempt := 0;
    while attempt < 3
      invariant 0 <= attempt <= 3
      invariant cursor % MINUTE == 0
      invariant ResolveFrom(z, guess, cursor, 3 - attempt) == Midnight(z, day)
    {
      var localMinutes := (FloorMinute(Local(z, cursor)) - guess) / MINUTE;
      ProbeStep(z, guess, cursor, 3 - attempt, localMinutes);
      if localMinutes == 0 {
        return cursor;
      }
      cursor := cursor - localMinutes * MINUTE;
      attempt := attempt + 1;
    }
    NoProbeLeft(z, guess, cursor);
  }

  method LocalDayBounds(z: Zone, day: int) returns (start: Instant, end: Instant)
    ensures start == Midnight(z, day) && end == Midnight(z, day + 1)
  {
    start := At(z, day);
    end := At(z, day + 1);
  }

  function Earlier(a: int, b: int): int {
    if a < b then a else b
  }

  function Later(a: int, b: int): int {
    if a < b then b else a
  }

  /** Where the search for a midnight ends: before the change, or after it. */
  predicate FoundBefore(a: int, b: int, change: Instant, day: int) {
    var before, after, midnight := change + a * MINUTE, change + b * MINUTE, day * DAY;
    midnight < Later(before, after) && (midnight < Earlier(before, after) || midnight < change)
  }

  lemma MidnightIs(z: Zone, a: int, b: int, change: Instant, day: int)
    requires ChangesOnce(z, a, b, change)
    ensures Midnight(z, day) == day * DAY - (if FoundBefore(a, b, change, day) then a else b) * MINUTE
  {
    hide Resolve;
    assert day * DAY == day * 86_400 * SECOND;
    ResolvesToEither(z, a, b, change, day * DAY);
  }

  /**
   What a caller could check beforehand: where the change moves the clock over the midnight, forwards or backwards,
   it does so from or to the midnight itself, and the midnight read as UTC comes before the change.
   */
  predicate MidnightKept(a: int, b: int, change: Instant, day: int) {
    var before, after, midnight := change + a * MINUTE, change + b * MINUTE, day * DAY;
    Earlier(before, after) <= midnight < Later(before, after) ==>
        midnight == Earlier(before, after) && midnight < change
  }

  /** The instant parts all time before the day from the day and all time after it. */
  ghost predicate Divides(z: Zone, at: Instant, day: int) {
    forall t :: at <= t <==> DayOf(z, t) >= day
  }

  lemma DayReached(z: Zone, t: Instant, day: int)
    ensures DayOf(z, t) >= day <==> Local(z, t) >= day * DAY
  {
    var e := DayOf(z, t);
    assert e * DAY <= Local(z, t) < e * DAY + DAY;
    Midnights(e, day);
  }

  /** The midnight found is where the day begins exactly when the change keeps it, whatever its size and direction. */
  lemma MidnightDividesExactly(z: Zone, a: int, b: int, change: Instant, day: int)
    requires ChangesOnce(z, a, b, change)
    ensures Divides(z, Midnight(z, day), day) <==> MidnightKept(a, b, change, day)
  {
    hide Midnight, DayOf;
    MidnightIs(z, a, b, change, day);
    forall t
      ensures DayOf(z, t) >= day <==> Local(z, t) >= day * DAY
    {
      DayReached(z, t, day);
    }
    var at := Midnight(z, day);
    if MidnightKept(a, b, change, day) {
      assert Divides(z, at, day);
    } else {
      MidnightLost(z, a, b, change, day);
    }
  }

  /** An instant that shows it, where the midnight is not kept. */
  lemma MidnightLost(z: Zone, a: int, b: int, change: Instant, day: int)
    requires ChangesOnce(z, a, b, change) && !MidnightKept(a, b, change, day)
    ensures !Divides(z, Midnight(z, day), day)
  {
    hide Midnight, DayOf;
    MidnightIs(z, a, b, change, day);
    var at, midnight := Midnight(z, day), day * DAY;
    var pa, pb := midnight - a * MINUTE, midnight - b * MINUTE;
    DayReached(z, change, day);
    DayReached(z, change - 1, day);
    DayReached(z, pa, day);
    DayReached(z, pb, day);
    assert Divides(z, at, day) ==>
        && (at <= change <==> DayOf(z, change) >= day) && (at <= change - 1 <==> DayOf(z, change - 1) >= day)
        && (at <= pa <==> DayOf(z, pa) >= day) && (at <= pb <==> DayOf(z, pb) >= day);
  }

  /** The bounds of the day hold its instants and no others. */
  ghost predicate BoundsAre(z: Zone, day: int) {
    forall t :: Midnight(z, day) <= t < Midnight(z, day + 1) <==> DayOf(z, t) == day
  }

  /**
   Local days tile the timeline, with the change or without: the bounds of a day are exactly the instants
   at which the clock shows that day, if and only if the change keeps both of its midnights.
   */
  lemma BoundsAreTheDay(z: Zone, a: int, b: int, change: Instant, day: int)
    requires ChangesOnce(z, a, b, change) && -MINUTES_PER_DAY <= b - a <= MINUTES_PER_DAY
    ensures BoundsAre(z, day) <==> MidnightKept(a, b, change, day) && MidnightKept(a, b, change, day + 1)
  {
    hide Midnight, DayOf, MidnightKept;
    if MidnightKept(a, b, change, day) && MidnightKept(a, b, change, day + 1) {
      MidnightDividesExactly(z, a, b, change, day);
      MidnightDividesExactly(z, a, b, change, day + 1);
      var start, end := Midnight(z, day), Midnight(z, day + 1);
      forall t
        ensures start <= t < end <==> DayOf(z, t) == day
      {
        assert start <= t <==> DayOf(z, t) >= day;
        assert end <= t <==> DayOf(z, t) >= day + 1;
      }
    } else if !MidnightKept(a, b, change, day) {
      StartLost(z, a, b, change, day);
    } else {
      EndLost(z, a, b, change, day);
    }
  }

  /** What the bounds say of one instant, and what its reading says. */
  lemma BoundsSay(z: Zone, day: int, t: Instant)
    requires BoundsAre(z, day)
    ensures Midnight(z, day) <= t < Midnight(z, day + 1) <==> day * DAY <= Local(z, t) < day * DAY + DAY
  {
    hide Midnight;
    DayReached(z, t, day);
    DayReached(z, t, day + 1);
    assert Midnight(z, day) <= t < Midnight(z, day + 1) <==> DayOf(z, t) == day;
  }

  lemma StartLost(z: Zone, a: int, b: int, change: Instant, day: int)
    requires ChangesOnce(z, a, b, change) && -MINUTES_PER_DAY <= b - a <= MINUTES_PER_DAY
    requires !MidnightKept(a, b, change, day)
    ensures !BoundsAre(z, day)
  {
    hide Midnight, BoundsAre;
    MidnightIs(z, a, b, change, day);
    MidnightIs(z, a, b, change, day + 1);
    Midnights(day, day);
    if BoundsAre(z, day) {
      BoundsSay(z, day, change);
      BoundsSay(z, day, change - 1);
      BoundsSay(z, day, day * DAY - a * MINUTE);
      BoundsSay(z, day, day * DAY - b * MINUTE);
    }
  }

  lemma EndLost(z: Zone, a: int, b: int, change: Instant, day: int)
    requires ChangesOnce(z, a, b, change) && -MINUTES_PER_DAY <= b - a <= MINUTES_PER_DAY
    requires MidnightKept(a, b, change, day) && !MidnightKept(a, b, change, day + 1)
    ensures !BoundsAre(z, day)
  {
    hide Midnight, BoundsAre;
    MidnightIs(z, a, b, change, day);
    MidnightIs(z, a, b, change, day + 1);
    Midnights(day, day);
    if BoundsAre(z, day) {
      BoundsSay(z, day, change);
      BoundsSay(z, day, change - 1);
      BoundsSay(z, day, (day + 1) * DAY - a * MINUTE);
      BoundsSay(z, day, (day + 1) * DAY - a * MINUTE - 1);
      BoundsSay(z, day, (day + 1) * DAY - b * MINUTE - 1);
    }
  }

  /**
   Only a day that starts before the change and ends after it is longer or shorter than 24 hours, by what the
   clock was moved.
   */
  lemma DayIsAsLong(z: Zone, a: int, b: int, change: Instant, day: int)
    requires ChangesOnce(z, a, b, change)
    ensures Midnight(z, day + 1) - Midnight(z, day) ==
              if FoundBefore(a, b, change, day) && !FoundBefore(a, b, change, day + 1) then DAY + (a - b) * MINUTE
                  else DAY
  {
    MidnightIs(z, a, b, change, day);
    MidnightIs(z, a, b, change, day + 1);
    Midnights(day, day);
  }

  /** In a zone with one offset every day is 24 hours and its bounds are the day. */
  lemma FixedBoundsAreTheDay(z: Zone, offset: int, day: int)
    requires FixedOffset(z, offset)
    ensures BoundsAre(z, day)
    ensures Midnight(z, day + 1) == Midnight(z, day) + DAY
  {
    BoundsAreTheDay(z, offset, offset, 0, day);
    DayIsAsLong(z, offset, offset, 0, day);
  }

  /**
   Put forward at midnight east of Greenwich, from 00:00 to 01:00 on day 0 at two hours ahead: the search ends an hour
   before the day begins, and half past eleven the evening before is filed under the day.
   */
  lemma ForwardAtMidnightMisfiles(z: Zone)
    requires ChangesOnce(z, 120, 180, -120 * MINUTE)
    ensures Midnight(z, 0) == -180 * MINUTE && !Divides(z, Midnight(z, 0), 0) && !BoundsAre(z, 0)
    ensures Midnight(z, 0) <= -150 * MINUTE < Midnight(z, 1) && DayOf(z, -150 * MINUTE) == -1
  {
    MidnightIs(z, 120, 180, -120 * MINUTE, 0);
    MidnightIs(z, 120, 180, -120 * MINUTE, 1);
    MidnightDividesExactly(z, 120, 180, -120 * MINUTE, 0);
    BoundsAreTheDay(z, 120, 180, -120 * MINUTE, 0);
  }
}
