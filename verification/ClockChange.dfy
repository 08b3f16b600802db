/**
 Daylight saving: a zone whose clock is put forward or back once, at night,
 still gives the shop regular days, so every working-hours law holds across it.
 */
module ClockChange {
  import opened ZonedTime
  import opened WorkingHours

  /** Offset `a` up to the instant `change`, offset `b` from then on. */
  ghost predicate ChangesOnce(z: Zone, a: int, b: int, change: Instant) {
    forall t :: z(t) == if t < change then a else b
  }

  /**
   The night before day `x`: under either offset, less than half a day apart, the clock reads a time later than
   closing on the day before, and no later than opening on the day itself.
   */
  predicate AtNight(w: Window, a: int, b: int, change: Instant, x: int) {
    && -720 < b - a < 720
    && (w.close - MINUTES_PER_DAY) * MINUTE < change + a * MINUTE - x * DAY <= w.open * MINUTE
    && (w.close - MINUTES_PER_DAY) * MINUTE < change + b * MINUTE - x * DAY <= w.open * MINUTE
  }

  function OffsetOn(day: int, a: int, b: int, x: int): int {
    if day < x then a else b
  }

  /**
   With two offsets in play the search ends at the target less one of them, whether or not the clock shows it
   there.
   */
  lemma ResolvesToEither(z: Zone, a: int, b: int, change: Instant, target: int)
    requires ChangesOnce(z, a, b, change) && target % SECOND == 0
    ensures Resolve(z, target) in {target - a * MINUTE, target - b * MINUTE}
    ensures Resolve(z, target) ==
              var pa, pb := target - a * MINUTE, target - b * MINUTE;
              if pa < change && pb < change then pa
              else if pa >= change && pb >= change then pb
              else if target < change then pa
              else pb
  {
    var pa, pb := target - a * MINUTE, target - b * MINUTE;
    Probe(z, target, target);
    FloorSecondOffset(target, -a);
    FloorSecondOffset(target, -b);
    Probe(z, target, pa);
    Probe(z, target, pb);
    var x0, x1 := target, target - z(target) * MINUTE;
    var x2 := target - z(x1) * MINUTE;
    ResolveThree(z, target, x0, x1, x2);
  }

  /** One correction of a guess on a whole second. */
  lemma Probe(z: Zone, target: int, guess: Instant)
    requires target % SECOND == 0 && guess % SECOND == 0
    ensures guess + (target - FloorSecond(Local(z, guess))) == target - z(guess) * MINUTE
    ensures FloorSecond(Local(z, guess)) == target <==> guess == target - z(guess) * MINUTE
  {
    FloorSecondOffset(guess, z(guess));
  }

  lemma ResolvesByDay(z: Zone, w: Window, a: int, b: int, change: Instant, x: int, day: int, minute: int)
    requires ChangesOnce(z, a, b, change) && AtNight(w, a, b, change, x)
    requires ValidWindow(w) && w.open <= minute <= w.close
    ensures At(z, day, minute) == day * DAY + minute * MINUTE - OffsetOn(day, a, b, x) * MINUTE
  {
    hide Resolve, ChangesOnce, ValidWindow;
    var target := day * DAY + minute * MINUTE;
    assert target == (day * 86_400 + minute * 60) * SECOND;
    WhichSide(w, a, b, change, x, day, minute);
    ResolvesToEither(z, a, b, change, target);
  }

  lemma WhichSide(w: Window, a: int, b: int, change: Instant, x: int, day: int, minute: int)
    requires AtNight(w, a, b, change, x)
    requires ValidWindow(w) && w.open <= minute <= w.close
    ensures day < x ==>
        day * DAY + minute * MINUTE - a * MINUTE < change && day * DAY + minute * MINUTE - b * MINUTE < change
    ensures day >= x ==>
        day * DAY + minute * MINUTE - a * MINUTE >= change && day * DAY + minute * MINUTE - b * MINUTE >= change
  {
    if day < x {
      assert day * DAY <= x * DAY - DAY;
    } else {
      assert day * DAY >= x * DAY;
    }
  }

  /** What reading the clock at `t` says about where `t` is, on either side of the change. */
  lemma ReadingSplits(z: Zone, t: Instant)
    ensures Local(z, t) == DayOf(z, t) * DAY + Local(z, t) % DAY
    ensures MinuteOf(z, t) * MINUTE <= Local(z, t) % DAY < MinuteOf(z, t) * MINUTE + MINUTE
    ensures 0 <= MinuteOf(z, t) < MINUTES_PER_DAY
  {
  }

  lemma DayIs(z: Zone, t: Instant, day: int, ofDay: int)
    requires Local(z, t) == day * DAY + ofDay && 0 <= ofDay < DAY
    ensures DayOf(z, t) == day && MinuteOf(z, t) == ofDay / MINUTE
  {
  }

  /** A day up to its closing the evening before reads wholly under `a`, one from its opening on wholly under `b`. */
  lemma OffsetSeen(z: Zone, w: Window, a: int, b: int, change: Instant, x: int, t: Instant)
    requires ValidWindow(w) && ChangesOnce(z, a, b, change) && AtNight(w, a, b, change, x)
    ensures DayOf(z, t) < x - 1 || (DayOf(z, t) == x - 1 && MinuteOf(z, t) < w.close) ==> t < change && z(t) == a
    ensures DayOf(z, t) > x || (DayOf(z, t) == x && MinuteOf(z, t) >= w.open) ==> t >= change && z(t) == b
  {
    ReadingSplits(z, t);
    Midnights(DayOf(z, t), x);
    Midnights(DayOf(z, t), x - 1);
  }

  /** Midnights are in the order of their days, a day apart. */
  lemma Midnights(day: int, x: int)
    ensures (day + 1) * DAY == day * DAY + DAY && (day - 1) * DAY == day * DAY - DAY
    ensures day < x ==> day * DAY <= x * DAY - DAY
    ensures day > x ==> day * DAY >= x * DAY + DAY
  {
  }

  /**
   `RegularAt` with every instant spelt out: `midnight` starts the day read at `t`, `minute` and `rest` are the
   rest of the reading.
   */
  lemma Placement(w: Window, a: int, b: int, change: Instant, x: int, day: int, minute: int, rest: int, t: Instant,
      offset: int)
    requires ValidWindow(w) && AtNight(w, a, b, change, x)
    requires t + offset * MINUTE == day * DAY + minute * MINUTE + rest && 0 <= rest < MINUTE
    requires 0 <= minute < MINUTES_PER_DAY
    requires offset == if t < change then a else b
    requires day < x - 1 || (day == x - 1 && minute < w.close) ==> t < change
    requires day > x || (day == x && minute >= w.open) ==> t >= change
    ensures
      var opening, closing := day * DAY + w.open * MINUTE - OffsetOn(day, a, b, x) * MINUTE,
                              day * DAY + w.close * MINUTE - OffsetOn(day, a, b, x) * MINUTE;
      var before, after := (day - 1) * DAY + w.close * MINUTE - OffsetOn(day - 1, a, b, x) * MINUTE,
                           (day + 1) * DAY + w.open * MINUTE - OffsetOn(day + 1, a, b, x) * MINUTE;
      if minute < w.open then before <= t < opening
      else if minute < w.close then opening <= t < closing && t - opening == (minute - w.open) * MINUTE + rest
      else closing <= t < after
  {
    Midnights(day, x);
  }

  lemma Windows(w: Window)
    requires ValidWindow(w)
    ensures 0 <= w.open < w.close < MINUTES_PER_DAY
  {
  }

  lemma OffsetAt(z: Zone, a: int, b: int, change: Instant, t: Instant)
    requires ChangesOnce(z, a, b, change)
    ensures z(t) == if t < change then a else b
  {
  }

  lemma NightChangeRegularAt(z: Zone, w: Window, a: int, b: int, change: Instant, x: int, t: Instant)
    requires ValidWindow(w) && ChangesOnce(z, a, b, change) && AtNight(w, a, b, change, x)
    ensures RegularAt(z, w, t)
  {
    hide At, DayOf, MinuteOf, OffsetOn, ChangesOnce, AtNight, ValidWindow;
    var day, minute := DayOf(z, t), MinuteOf(z, t);
    Windows(w);
    OffsetAt(z, a, b, change, t);
    OffsetSeen(z, w, a, b, change, x, t);
    ReadingSplits(z, t);
    var rest := Local(z, t) % DAY - minute * MINUTE;
    Placement(w, a, b, change, x, day, minute, rest, t, z(t));
    ResolvesByDay(z, w, a, b, change, x, day, w.open);
    ResolvesByDay(z, w, a, b, change, x, day, w.close);
    ResolvesByDay(z, w, a, b, change, x, day - 1, w.close);
    ResolvesByDay(z, w, a, b, change, x, day + 1, w.open);
    assert ((minute - w.open) * MINUTE + rest) / MINUTE == minute - w.open;
  }

  /** Wherever the search for a day's noon ends, 24 hours on is some time of the next day. */
  lemma NextNoonIsNextDay(z: Zone, a: int, b: int, change: Instant, day: int)
    requires ChangesOnce(z, a, b, change) && -720 < b - a < 720
    ensures DayOf(z, NextNoon(z, day)) == day + 1
  {
    NoonIs(z, a, b, change, day);
    hide At;
    Midnights(day, day);
    var noon := NextNoon(z, day);
    var was := if At(z, day, 720) == day * DAY + 720 * MINUTE - a * MINUTE then a else b;
    assert noon == (day + 1) * DAY + 720 * MINUTE - was * MINUTE;
    DayIs(z, noon, day + 1, 720 * MINUTE + (z(noon) - was) * MINUTE);
  }

  lemma NoonIs(z: Zone, a: int, b: int, change: Instant, day: int)
    requires ChangesOnce(z, a, b, change)
    ensures At(z, day, 720) in {day * DAY + 720 * MINUTE - a * MINUTE, day * DAY + 720 * MINUTE - b * MINUTE}
  {
    var target := day * DAY + 720 * MINUTE;
    assert target == (day * 86_400 + 43_200) * SECOND;
    ResolvesToEither(z, a, b, change, target);
  }

  lemma OpeningReads(z: Zone, w: Window, a: int, b: int, change: Instant, x: int, day: int)
    requires ValidWindow(w) && ChangesOnce(z, a, b, change) && AtNight(w, a, b, change, x)
    ensures DayOf(z, Open(z, w, day)) == day && MinuteOf(z, Open(z, w, day)) == w.open
  {
    ResolvesByDay(z, w, a, b, change, x, day, w.open);
    WhichSide(w, a, b, change, x, day, w.open);
    hide At;
    DayIs(z, Open(z, w, day), day, w.open * MINUTE);
  }

  /** Closing comes before the next day's opening, with the change between them where it falls that night. */
  lemma NightIsThere(w: Window, a: int, b: int, change: Instant, x: int, day: int)
    requires ValidWindow(w) && AtNight(w, a, b, change, x)
    ensures day * DAY + w.close * MINUTE - OffsetOn(day, a, b, x) * MINUTE
         <= (day + 1) * DAY + w.open * MINUTE - OffsetOn(day + 1, a, b, x) * MINUTE
    ensures -720 < b - a < 720
  {
    Midnights(day, x);
  }

  lemma NightChangeRegularDay(z: Zone, w: Window, a: int, b: int, change: Instant, x: int, day: int)
    requires ValidWindow(w) && ChangesOnce(z, a, b, change) && AtNight(w, a, b, change, x)
    ensures RegularDay(z, w, day)
  {
    hide At, DayOf, MinuteOf, NextNoon, ChangesOnce, ValidWindow, OffsetOn;
    Windows(w);
    OpeningReads(z, w, a, b, change, x, day);
    NextNoonIsNextDay(z, a, b, change, day);
    ResolvesByDay(z, w, a, b, change, x, day, w.open);
    ResolvesByDay(z, w, a, b, change, x, day, w.close);
    ResolvesByDay(z, w, a, b, change, x, day + 1, w.open);
    Midnights(day, x);
    NightIsThere(w, a, b, change, x, day);
  }

  /**
   One clock change between closing and opening keeps every day regular, whichever way it goes and whatever
   midnight it crosses.
   */
  lemma NightChangeRegular(z: Zone, w: Window, a: int, b: int, change: Instant, x: int)
    requires ValidWindow(w) && ChangesOnce(z, a, b, change) && AtNight(w, a, b, change, x)
    ensures Regular(z, w)
  {
    hide RegularDay, RegularAt, ChangesOnce, AtNight, ValidWindow;
    forall day
      ensures RegularDay(z, w, day)
    {
      NightChangeRegularDay(z, w, a, b, change, x, day);
    }
    forall t
      ensures RegularAt(z, w, t)
    {
      NightChangeRegularAt(z, w, a, b, change, x, t);
    }
  }
}
