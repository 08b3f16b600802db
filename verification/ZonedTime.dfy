/**
 Wall-clock readings of instants, and instants from wall-clock readings.

 An instant is a count of milliseconds; a zone gives the offset in whole minutes
 in force at each instant; a calendar date is a day number (day 0 is
 1 January 1970, a Thursday).
 */
module ZonedTime {

  const SECOND := 1_000
  const MINUTE := 60_000
  const DAY := 86_400_000
  const MINUTES_PER_DAY := 1_440

  type Instant = int

  /** Minutes ahead of UTC, instant by instant. */
  type Zone = Instant -> int

  ghost predicate FixedOffset(z: Zone, offset: int) {
    forall t :: z(t) == offset
  }

  /** The wall clock as milliseconds since day 0 began on that clock. */
  function Local(z: Zone, t: Instant): int {
    t + z(t) * MINUTE
  }

  function DayOf(z: Zone, t: Instant): int {
    Local(z, t) / DAY
  }

  function MinuteOf(z: Zone, t: Instant): int {
    Local(z, t) % DAY / MINUTE
  }

  function Weekday(day: int): int {
    (day + 4) % 7
  }

  /** Day 0 was a Thursday, and each day's weekday follows the one before it around the week, Sunday being 0. */
  lemma WeekdayFollows(day: int)
    ensures Weekday(0) == 4
    ensures Weekday(day + 1) == if Weekday(day) == 6 then 0 else Weekday(day) + 1
    ensures 0 <= Weekday(day) < 7
  {
  }

  /** A date and a time of day to the second, as a wall clock shows them. */
  datatype Reading = Reading(day: int, hour: int, minute: int, second: int)

  function ZonedParts(z: Zone, t: Instant): Reading {
    var ofDay := Local(z, t) % DAY;
    Reading(Local(z, t) / DAY, ofDay / MINUTE / 60, ofDay / MINUTE % 60, ofDay % MINUTE / SECOND)
  }

  /** The reading taken as if it were UTC. */
  function Utc(r: Reading): int {
    r.day * DAY + (r.hour * 60 + r.minute) * MINUTE + r.second * SECOND
  }

  predicate ValidReading(r: Reading) {
    0 <= r.hour < 24 && 0 <= r.minute < 60 && 0 <= r.second < 60
  }

  function FloorSecond(n: int): int {
    n - n % SECOND
  }

  function FloorMinute(n: int): int {
    n - n % MINUTE
  }

  lemma UtcOfParts(z: Zone, t: Instant)
    ensures ValidReading(ZonedParts(z, t))
    ensures Utc(ZonedParts(z, t)) == FloorSecond(Local(z, t))
  {
  }

  lemma PartsOfUtc(r: Reading, n: int)
    requires ValidReading(r) && FloorSecond(n) == Utc(r)
    ensures n / DAY == r.day && n % DAY / MINUTE == r.hour * 60 + r.minute && n % DAY % MINUTE / SECOND == r.second
  {
    var ofDay := (r.hour * 60 + r.minute) * MINUTE + r.second * SECOND + n % SECOND;
    assert n == r.day * DAY + ofDay && 0 <= ofDay < DAY;
  }

  /** Correct a guess by the drift between what it shows and what it should show, at most `attempts` times. */
  function ResolveFrom(z: Zone, target: int, guess: Instant, attempts: nat): Instant
    decreases attempts
  {
    if attempts == 0 then guess
    else
      var drift := target - FloorSecond(Local(z, guess));
      if drift == 0 then guess else ResolveFrom(z, target, guess + drift, attempts - 1)
  }

  function Resolve(z: Zone, target: int): Instant {
    ResolveFrom(z, target, target, 3)
  }

  method InstantFromZonedParts(z: Zone, r: Reading) returns (instant: Instant)
    ensures instant == Resolve(z, Utc(r))
  {
    var target := Utc(r);
    instant := target;
    var attempt := 0;
    while attempt < 3
      invariant 0 <= attempt <= 3
      invariant ResolveFrom(z, target, instant, 3 - attempt) == Resolve(z, target)
    {
      var rendered := Utc(ZonedParts(z, instant));
      UtcOfParts(z, instant);
      var drift := target - rendered;
      if drift == 0 {
        return instant;
      }
      instant := instant + drift;
      attempt := attempt + 1;
    }
  }

  /** The clock shows `target` exactly at `t`. */
  predicate Shows(z: Zone, t: Instant, target: int) {
    Local(z, t) == target
  }

  lemma FloorSecondOffset(t: int, offset: int)
    ensures FloorSecond(t + offset * MINUTE) == FloorSecond(t) + offset * MINUTE
  {
    assert (t + offset * MINUTE) % SECOND == (t + (offset * 60) * SECOND) % SECOND == t % SECOND;
  }

  /**
   Three attempts are enough across a clock change: where only two offsets are
   in play around a reading, the search finds an instant that shows it whenever
   there is one. (A reading the clock skips has none, and one it repeats has two.)
   */
  lemma ResolveFinds(z: Zone, target: int, a: int, b: int, p: Instant)
    requires target % SECOND == 0
    requires z(target) in {a, b} && z(target - a * MINUTE) in {a, b} && z(target - b * MINUTE) in {a, b}
    requires p in {target - a * MINUTE, target - b * MINUTE} && Shows(z, p, target)
    ensures Shows(z, Resolve(z, target), target)
  {
    var x0 := target;
    var x1 := target - z(x0) * MINUTE;
    FloorSecondOffset(x0, z(x0));
    FloorSecondOffset(target, -z(x0));
    FloorSecondOffset(x1, z(x1));
    var x2 := target - z(x1) * MINUTE;
    FloorSecondOffset(target, -z(x1));
    FloorSecondOffset(x2, z(x2));
    assert Shows(z, x0, target) <==> target - FloorSecond(Local(z, x0)) == 0;
    assert Shows(z, x1, target) <==> target - FloorSecond(Local(z, x1)) == 0;
    assert Shows(z, x2, target) <==> target - FloorSecond(Local(z, x2)) == 0;
    assert x0 + (target - FloorSecond(Local(z, x0))) == x1;
    assert x1 + (target - FloorSecond(Local(z, x1))) == x2;
    assert Shows(z, x0, target) || Shows(z, x1, target) || Shows(z, x2, target);
    ResolveThree(z, target, x0, x1, x2);
  }

  lemma ResolveThree(z: Zone, target: int, x0: Instant, x1: Instant, x2: Instant)
    requires x0 == target && x1 == x0 + (target - FloorSecond(Local(z, x0)))
    requires x2 == x1 + (target - FloorSecond(Local(z, x1)))
    ensures Resolve(z, target) ==
      if FloorSecond(Local(z, x0)) == target then x0
      else if FloorSecond(Local(z, x1)) == target then x1
      else if FloorSecond(Local(z, x2)) == target then x2
      else x2 + (target - FloorSecond(Local(z, x2)))
  {
    assert ResolveFrom(z, target, x2, 1) ==
      if FloorSecond(Local(z, x2)) == target then x2 else x2 + (target - FloorSecond(Local(z, x2)));
    assert ResolveFrom(z, target, x1, 2) ==
      if FloorSecond(Local(z, x1)) == target then x1 else ResolveFrom(z, target, x2, 1);
  }

  lemma DriftAligned(z: Zone, target: int, guess: Instant)
    requires target % MINUTE == 0 && guess % MINUTE == 0
    ensures (guess + (target - FloorSecond(Local(z, guess)))) % MINUTE == 0
  {
    FloorSecondOffset(guess, z(guess));
    assert guess % SECOND == 0;
    assert guess + (target - FloorSecond(Local(z, guess))) == target - z(guess) * MINUTE;
  }

  /** Whole-minute readings resolve to whole-minute instants. */
  lemma {:induction false} ResolveFromAligned(z: Zone, target: int, guess: Instant, attempts: nat)
    requires target % MINUTE == 0 && guess % MINUTE == 0
    ensures ResolveFrom(z, target, guess, attempts) % MINUTE == 0
    decreases attempts
  {
    hide Local, FloorSecond;
    if attempts > 0 {
      var drift := target - FloorSecond(Local(z, guess));
      DriftAligned(z, target, guess);
      if drift != 0 {
        ResolveFromAligned(z, target, guess + drift, attempts - 1);
      }
    }
  }

  /** With a fixed offset the bridge is exact: the resolved instant is the only one that shows the reading. */
  lemma ResolveFixed(z: Zone, offset: int, target: int)
    requires FixedOffset(z, offset) && target % SECOND == 0
    ensures Resolve(z, target) == target - offset * MINUTE
  {
    var p := target - offset * MINUTE;
    ResolveFinds(z, target, offset, offset, p);
  }

  /** The two bridges undo each other: to the second one way, exactly the other. */
  lemma ReadingRoundTrip(z: Zone, offset: int, r: Reading, t: Instant)
    requires FixedOffset(z, offset)
    ensures ValidReading(r) ==> ZonedParts(z, Resolve(z, Utc(r))) == r
    ensures Resolve(z, Utc(ZonedParts(z, t))) == FloorSecond(t)
  {
    hide Resolve, ZonedParts, Utc, FloorSecond;
    if ValidReading(r) {
      ReadingKept(z, offset, r);
    }
    UtcOfParts(z, t);
    FloorSecondOffset(t, offset);
    SecondsWhole(Local(z, t));
    ResolveFixed(z, offset, Utc(ZonedParts(z, t)));
  }

  lemma SecondsWhole(n: int)
    ensures FloorSecond(n) % SECOND == 0
  {
  }

  lemma ReadingKept(z: Zone, offset: int, r: Reading)
    requires FixedOffset(z, offset) && ValidReading(r)
    ensures ZonedParts(z, Resolve(z, Utc(r))) == r
  {
    hide Resolve;
    assert Utc(r) % SECOND == 0;
    ResolveFixed(z, offset, Utc(r));
    var p := Resolve(z, Utc(r));
    assert Local(z, p) == Utc(r) && FloorSecond(Utc(r)) == Utc(r);
    PartsOfUtc(r, Local(z, p));
  }
}
