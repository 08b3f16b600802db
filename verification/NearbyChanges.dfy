/**
 Zones whose clocks change again and again, as daylight saving has it: what holds across one change holds
 wherever changes are a week apart, because each reading of the clock looks at a few days only.
 */
module NearbyChanges {
  import opened ZonedTime
  import opened WorkingHours
  import opened ClockChange
  import opened QuietHours
  import LocalDays

  /** A zone that changes once in all of time. */
  function OneChange(a: int, b: int, change: Instant): Zone {
    t => if t < change then a else b
  }

  ghost predicate SameOn(z: Zone, y: Zone, from: Instant, to: Instant) {
    forall t | from <= t < to :: z(t) == y(t)
  }

  /** No clock is more than fifteen hours from UTC. */
  ghost predicate Bounded(z: Zone) {
    forall t :: -900 <= z(t) <= 900
  }

  // ----- A search looks no further than a day from its target -----

  lemma {:induction false} ResolveFromSame(z: Zone, y: Zone, target: int, guess: Instant, attempts: nat)
    requires Bounded(z) && SameOn(z, y, target - DAY, target + DAY) && target % SECOND == 0 && guess % SECOND == 0
    requires target - 900 * MINUTE <= guess <= target + 900 * MINUTE
    ensures ResolveFrom(z, target, guess, attempts) == ResolveFrom(y, target, guess, attempts)
    ensures target - 900 * MINUTE <= ResolveFrom(z, target, guess, attempts) <= target + 900 * MINUTE
    decreases attempts
  {
    assert z(guess) == y(guess) && -900 <= z(guess) <= 900;
    FloorSecondOffset(guess, z(guess));
    var next := guess + (target - FloorSecond(Local(z, guess)));
    assert next == target - z(guess) * MINUTE;
    assert next % SECOND == 0 by { FloorSecondOffset(target, -z(guess)); }
    if attempts > 0 {
      ResolveFromSame(z, y, target, next, attempts - 1);
    }
  }

  lemma AtSame(z: Zone, y: Zone, day: int, minute: int)
    requires Bounded(z) && SameOn(z, y, day * DAY + minute * MINUTE - DAY, day * DAY + minute * MINUTE + DAY)
    ensures At(z, day, minute) == At(y, day, minute)
    ensures day * DAY + minute * MINUTE - 900 * MINUTE <= At(z, day, minute)
            <= day * DAY + minute * MINUTE + 900 * MINUTE
  {
    hide ResolveFrom;
    var target := day * DAY + minute * MINUTE;
    assert target == (day * 86_400 + minute * 60) * SECOND;
    ResolveFromSame(z, y, target, target, 3);
  }

  // ----- Working hours -----

  /** In the week about this day the zone does what one with a single change does. */
  ghost predicate SameAbout(z: Zone, y: Zone, day: int) {
    SameOn(z, y, (day - 3) * DAY, (day + 4) * DAY)
  }

  lemma AtSameAbout(z: Zone, y: Zone, middle: int, day: int, minute: int)
    requires Bounded(z) && SameAbout(z, y, middle)
    requires middle - 2 <= day <= middle + 2 && 0 <= minute < MINUTES_PER_DAY
    ensures At(z, day, minute) == At(y, day, minute)
    ensures day * DAY - 900 * MINUTE <= At(z, day, minute) < (day + 1) * DAY + 900 * MINUTE
  {
    hide At;
    assert (middle - 2) * DAY <= day * DAY <= (middle + 2) * DAY;
    AtSame(z, y, day, minute);
  }

  lemma RegularDaySame(z: Zone, y: Zone, w: Window, day: int)
    requires Bounded(z) && SameAbout(z, y, day) && ValidWindow(w) && RegularDay(y, w, day)
    ensures RegularDay(z, w, day)
  {
    hide At;
    AtSameAbout(z, y, day, day, w.open);
    AtSameAbout(z, y, day, day, w.close);
    AtSameAbout(z, y, day, day + 1, w.open);
    AtSameAbout(z, y, day, day, 720);
  }

  lemma ReadingNearby(z: Zone, t: Instant)
    requires Bounded(z)
    ensures t / DAY - 1 <= DayOf(z, t) <= t / DAY + 1
  {
    assert -900 <= z(t) <= 900;
  }

  lemma RegularAtSame(z: Zone, y: Zone, w: Window, t: Instant)
    requires Bounded(z) && SameAbout(z, y, t / DAY) && ValidWindow(w) && RegularAt(y, w, t)
    ensures RegularAt(z, w, t)
  {
    hide At;
    var middle, day := t / DAY, DayOf(z, t);
    ReadingNearby(z, t);
    assert z(t) == y(t);
    AtSameAbout(z, y, middle, day, w.open);
    AtSameAbout(z, y, middle, day, w.close);
    AtSameAbout(z, y, middle, day - 1, w.close);
    AtSameAbout(z, y, middle, day + 1, w.open);
  }

  /** In the week about this day the clock changes at most once, and at night. */
  ghost predicate OneNightChange(z: Zone, w: Window, day: int) {
    exists a, b, change, x :: AtNight(w, a, b, change, x) && SameAbout(z, OneChange(a, b, change), day)
  }

  ghost predicate NightChanges(z: Zone, w: Window) {
    Bounded(z) && forall day :: OneNightChange(z, w, day)
  }

  lemma OneChangeChangesOnce(a: int, b: int, change: Instant)
    ensures ChangesOnce(OneChange(a, b, change), a, b, change)
  {
  }

  /** However often the clock changes, if it does so at night and never twice in a week, the shop's days are regular. */
  lemma NightChangesRegular(z: Zone, w: Window)
    requires ValidWindow(w) && NightChanges(z, w)
    ensures Regular(z, w)
  {
    hide RegularDay, RegularAt, AtNight, ValidWindow, SameAbout, Bounded, OneChange;
    forall day
      ensures RegularDay(z, w, day)
    {
      assert OneNightChange(z, w, day);
      var a, b, change, x :| AtNight(w, a, b, change, x) && SameAbout(z, OneChange(a, b, change), day);
      OneChangeChangesOnce(a, b, change);
      NightChangeRegularDay(OneChange(a, b, change), w, a, b, change, x, day);
      RegularDaySame(z, OneChange(a, b, change), w, day);
    }
    forall t
      ensures RegularAt(z, w, t)
    {
      assert OneNightChange(z, w, t / DAY);
      var a, b, change, x :| AtNight(w, a, b, change, x) && SameAbout(z, OneChange(a, b, change), t / DAY);
      OneChangeChangesOnce(a, b, change);
      NightChangeRegularAt(OneChange(a, b, change), w, a, b, change, x, t);
      RegularAtSame(z, OneChange(a, b, change), w, t);
    }
  }

  /** From one spring's change to the next one's. */
  ghost predicate InYear(spring: int -> Instant, year: int, t: Instant) {
    spring(year) <= t < spring(year + 1)
  }

  ghost predicate Covered(spring: int -> Instant, t: Instant) {
    exists year :: InYear(spring, year, t)
  }

  /** Put forward in spring and back in autumn, more than a week apart. */
  ghost predicate YearOk(z: Zone, winter: int, summer: int, spring: int -> Instant, autumn: int -> Instant, year: int) {
    && spring(year) + 8 * DAY <= autumn(year) && autumn(year) + 8 * DAY <= spring(year + 1)
    && (forall t | spring(year) <= t < autumn(year) :: z(t) == summer)
    && (forall t | autumn(year) <= t < spring(year + 1) :: z(t) == winter)
  }

  /** Daylight saving, year after year. */
  ghost predicate DaylightSaving(z: Zone, winter: int, summer: int, spring: int -> Instant, autumn: int -> Instant) {
    && -900 <= winter <= 900 && -900 <= summer <= 900
    && (forall year :: YearOk(z, winter, summer, spring, autumn, year))
    && (forall t :: Covered(spring, t))
  }

  ghost predicate ChangesAtNight(w: Window, a: int, b: int, change: Instant) {
    exists x :: AtNight(w, a, b, change, x)
  }

  ghost predicate SavingAtNight(w: Window, winter: int, summer: int, spring: int -> Instant, autumn: int -> Instant) {
    forall year :: ChangesAtNight(w, winter, summer, spring(year)) && ChangesAtNight(w, summer, winter, autumn(year))
  }

  /** Daylight saving with its changes at night, year after year, keeps the shop's days regular. */
  lemma DaylightSavingRegular(z: Zone, w: Window, winter: int, summer: int, spring: int -> Instant,
      autumn: int -> Instant)
    requires ValidWindow(w) && DaylightSaving(z, winter, summer, spring, autumn)
    requires SavingAtNight(w, winter, summer, spring, autumn)
    ensures Regular(z, w)
  {
    hide OneNightChange, Regular, ValidWindow, SavingAtNight;
    forall t
      ensures -900 <= z(t) <= 900
    {
      assert Covered(spring, t);
      var year :| InYear(spring, year, t);
      assert YearOk(z, winter, summer, spring, autumn, year);
    }
    forall day
      ensures OneNightChange(z, w, day)
    {
      OneChangeAWeek(z, w, winter, summer, spring, autumn, day);
    }
    NightChangesRegular(z, w);
  }

  lemma OneChangeAWeek(z: Zone, w: Window, winter: int, summer: int, spring: int -> Instant, autumn: int -> Instant,
      day: int)
    requires DaylightSaving(z, winter, summer, spring, autumn) && SavingAtNight(w, winter, summer, spring, autumn)
    ensures OneNightChange(z, w, day)
  {
    hide AtNight, ChangesAtNight, OneNightChange;
    var from := (day - 3) * DAY;
    assert Covered(spring, from);
    var year :| InYear(spring, year, from);
    assert YearOk(z, winter, summer, spring, autumn, year) && YearOk(z, winter, summer, spring, autumn, year + 1);
    assert (day + 4) * DAY == from + 7 * DAY;
    if from < autumn(year) {
      OneNight(z, w, summer, winter, autumn(year), day);
    } else {
      OneNight(z, w, winter, summer, spring(year + 1), day);
    }
  }

  lemma OneNight(z: Zone, w: Window, a: int, b: int, change: Instant, day: int)
    requires ChangesAtNight(w, a, b, change) && SameAbout(z, OneChange(a, b, change), day)
    ensures OneNightChange(z, w, day)
  {
    hide AtNight, SameAbout;
    var x :| AtNight(w, a, b, change, x);
  }

  // ----- Quiet hours -----

  /** The result, and whether it is the earliest, depend on two days of the zone. */
  lemma OutsideSame(z: Zone, y: Zone, q: QuietWindow, a: int, b: int, change: Instant, t: Instant)
    requires ValidQuiet(q) && SameOn(z, y, t, t + 2 * DAY) && ChangesOnce(y, a, b, change)
    ensures Outside(z, q, t) == Outside(y, q, t) && t <= Outside(z, q, t) < t + 2 * DAY
    ensures IsLeastOutside(z, q, t, Outside(z, q, t)) <==> IsLeastOutside(y, q, t, Outside(y, q, t))
    ensures IsQuiet(z, q, t) <==> IsQuiet(y, q, t)
    ensures IsQuiet(z, q, Outside(z, q, t)) <==> IsQuiet(y, q, Outside(y, q, t))
  {
    hide IsQuiet, Jump, OutsideFrom;
    MinutesSame(z, y, q, t, t + 2 * DAY);
    JumpReach(z, q, t);
    var r := Jump(z, q, t);
    JumpReach(z, q, r);
    if IsQuiet(y, q, t) {
      OutsideIsJumps(y, q, a, b, change, t);
      OutsideIsOutside(y, q, a, b, change, t);
      JumpsTaken(z, q, t);
    }
  }

  lemma HarmlessSame(z: Zone, y: Zone, q: QuietWindow, change: Instant, t: Instant)
    requires SameOn(z, y, t, t + 2 * DAY)
    ensures ChangeHarmless(z, q, change, t) <==> ChangeHarmless(y, q, change, t)
  {
    hide IsQuiet, Jump, Landing;
    MinutesSame(z, y, q, t, t + 2 * DAY);
    JumpReach(z, q, t);
    if t < change < Jump(z, q, t) {
      LandingSame(z, y, q, change);
    }
  }

  lemma JumpsTaken(z: Zone, q: QuietWindow, t: Instant)
    requires !IsQuiet(z, q, Jump(z, q, t)) || !IsQuiet(z, q, Jump(z, q, Jump(z, q, t)))
    ensures OutsideFrom(z, q, t, 3) == if IsQuiet(z, q, Jump(z, q, t)) then Jump(z, q, Jump(z, q, t)) else Jump(z, q, t)
  {
    hide IsQuiet, Jump;
    var r := Jump(z, q, t);
    assert IsQuiet(z, q, r) ==> OutsideFrom(z, q, r, 2) == Jump(z, q, r);
  }

  lemma MinutesSame(z: Zone, y: Zone, q: QuietWindow, from: Instant, to: Instant)
    requires SameOn(z, y, from, to)
    ensures forall u | from <= u < to :: MinuteOf(z, u) == MinuteOf(y, u)
    ensures forall u | from <= u < to :: IsQuiet(z, q, u) == IsQuiet(y, q, u) && Jump(z, q, u) == Jump(y, q, u)
  {
    hide QuietMinute;
  }

  lemma LandingSame(z: Zone, y: Zone, q: QuietWindow, t: Instant)
    requires Jump(z, q, t) == Jump(y, q, t)
    ensures Landing(z, q, t) == Landing(y, q, t)
  {
  }

  /** When the promise of the earliest instant is kept, by what the zone does in the two days from the start. */
  lemma EarliestExactlyNearby(z: Zone, q: QuietWindow, a: int, b: int, change: Instant, t: Instant)
    requires ValidQuiet(q) && SameOn(z, OneChange(a, b, change), t, t + 2 * DAY)
    ensures !IsQuiet(z, q, Outside(z, q, t))
    ensures IsLeastOutside(z, q, t, Outside(z, q, t))
       <==> !IsQuiet(z, q, t) || (t % MINUTE == 0 && ChangeHarmless(z, q, change, t))
  {
    hide Outside, IsQuiet, IsLeastOutside, ChangeHarmless;
    OneChangeChangesOnce(a, b, change);
    HarmlessSame(z, OneChange(a, b, change), q, change, t);
    OutsideSame(z, OneChange(a, b, change), q, a, b, change, t);
    EarliestExactly(OneChange(a, b, change), q, a, b, change, t);
    OutsideIsOutside(OneChange(a, b, change), q, a, b, change, t);
  }

  // ----- Local days -----

  /**
   The bounds of a day are its instants exactly when both its midnights are kept, in every zone that changes at
   most once in the week about it.
   */
  lemma BoundsAreTheDayNearby(z: Zone, a: int, b: int, change: Instant, day: int)
    requires Bounded(z) && SameAbout(z, OneChange(a, b, change), day) && -MINUTES_PER_DAY <= b - a <= MINUTES_PER_DAY
    ensures LocalDays.BoundsAre(z, day)
       <==> LocalDays.MidnightKept(a, b, change, day) && LocalDays.MidnightKept(a, b, change, day + 1)
  {
    hide LocalDays.Midnight, LocalDays.MidnightKept, DayOf;
    var y := OneChange(a, b, change);
    OneChangeChangesOnce(a, b, change);
    MidnightSame(z, y, day, day);
    MidnightSame(z, y, day, day + 1);
    Midnights(day, day);
    forall t
      ensures LocalDays.Midnight(z, day) <= t < LocalDays.Midnight(z, day + 1)
         <==> LocalDays.Midnight(y, day) <= t < LocalDays.Midnight(y, day + 1)
      ensures DayOf(z, t) == day <==> DayOf(y, t) == day
    {
      SameDayOf(z, a, b, change, day, t);
    }
    LocalDays.BoundsAreTheDay(y, a, b, change, day);
  }

  lemma SameDayOf(z: Zone, a: int, b: int, change: Instant, day: int, t: Instant)
    requires Bounded(z) && SameAbout(z, OneChange(a, b, change), day) && -MINUTES_PER_DAY <= b - a <= MINUTES_PER_DAY
    ensures DayOf(z, t) == day <==> DayOf(OneChange(a, b, change), t) == day
  {
    hide DayOf;
    var y := OneChange(a, b, change);
    var from := (day - 3) * DAY;
    assert from == day * DAY - 3 * DAY && (day + 4) * DAY == day * DAY + 4 * DAY;
    assert z(from) == y(from) && -900 <= z(from) <= 900;
    assert -900 <= z(t) <= 900 && -2400 <= y(t) <= 2400;
    LocalDays.DayReached(z, t, day);
    LocalDays.DayReached(z, t, day + 1);
    LocalDays.DayReached(y, t, day);
    LocalDays.DayReached(y, t, day + 1);
    if from <= t < (day + 4) * DAY {
      assert z(t) == y(t);
    }
  }

  lemma MidnightSame(z: Zone, y: Zone, middle: int, day: int)
    requires Bounded(z) && SameAbout(z, y, middle) && middle <= day <= middle + 1
    ensures LocalDays.Midnight(z, day) == LocalDays.Midnight(y, day)
    ensures day * DAY - 900 * MINUTE <= LocalDays.Midnight(z, day) <= day * DAY + 900 * MINUTE
  {
    hide ResolveFrom, SameOn;
    var target := day * DAY;
    WholeSeconds(day);
    DayAbout(z, y, middle, day);
    ResolveFromSame(z, y, target, target, 3);
  }

  lemma WholeSeconds(day: int)
    ensures day * DAY % SECOND == 0
  {
    assert day * DAY == day * 86_400 * SECOND;
  }

  lemma DayAbout(z: Zone, y: Zone, middle: int, day: int)
    requires SameAbout(z, y, middle) && middle <= day <= middle + 1
    ensures SameOn(z, y, day * DAY - DAY, day * DAY + DAY)
  {
    assert (middle - 3) * DAY <= day * DAY - DAY && day * DAY + DAY <= (middle + 4) * DAY;
  }
}
