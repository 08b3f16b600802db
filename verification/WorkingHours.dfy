/**
 Working-hours arithmetic. The simple notion is the set of instants at which the
 shop is open; the loops jump over it a day at a time.
 */
module WorkingHours {
  import opened ZonedTime

  datatype Window = Window(days: set<int>, open: int, close: int)

  /** What the window's schema admits: some weekday, and closing later in the day than opening. */
  predicate ValidWindow(w: Window) {
    && (exists d :: d in w.days)
    && (forall d :: d in w.days ==> 0 <= d <= 6)
    && 0 <= w.open < w.close < MINUTES_PER_DAY
  }

  predicate IsWorkingDay(w: Window, day: int) {
    Weekday(day) in w.days
  }

  predicate IsWithin(z: Zone, w: Window, t: Instant) {
    IsWorkingDay(w, DayOf(z, t)) && w.open <= MinuteOf(z, t) < w.close
  }

  /** The instant the clock is taken to show this minute of this day. */
  function At(z: Zone, day: int, minute: int): Instant {
    Resolve(z, day * DAY + minute * MINUTE)
  }

  function Open(z: Zone, w: Window, day: int): Instant {
    At(z, day, w.open)
  }

  function Close(z: Zone, w: Window, day: int): Instant {
    At(z, day, w.close)
  }

  /** Noon on this day plus 24 hours: some instant of the next day. */
  function NextNoon(z: Zone, day: int): Instant {
    At(z, day, 720) + DAY
  }

  // ----- Zones in which the shop's day is regular -----

  /** Opening and closing bracket one unbroken stretch, in order of days. */
  predicate RegularDay(z: Zone, w: Window, day: int) {
    && DayOf(z, Open(z, w, day)) == day && MinuteOf(z, Open(z, w, day)) == w.open
    && Close(z, w, day) == Open(z, w, day) + (w.close - w.open) * MINUTE
    && Close(z, w, day) <= Open(z, w, day + 1)
    && DayOf(z, NextNoon(z, day)) == day + 1
  }

  /** The clock's reading places an instant before, within or after its day's hours, as it seems to. */
  predicate RegularAt(z: Zone, w: Window, t: Instant) {
    var day, minute := DayOf(z, t), MinuteOf(z, t);
    if minute < w.open then Close(z, w, day - 1) <= t < Open(z, w, day)
    else if minute < w.close then
      Open(z, w, day) <= t < Close(z, w, day) && minute == w.open + (t - Open(z, w, day)) / MINUTE
    else Close(z, w, day) <= t < Open(z, w, day + 1)
  }

  ghost predicate Regular(z: Zone, w: Window) {
    && (forall day :: RegularDay(z, w, day))
    && (forall t :: RegularAt(z, w, t))
  }

  lemma FixedAt(z: Zone, offset: int, day: int, minute: int)
    requires FixedOffset(z, offset)
    ensures At(z, day, minute) == day * DAY + minute * MINUTE - offset * MINUTE
  {
    hide Resolve;
    assert (day * DAY + minute * MINUTE) % SECOND == 0;
    ResolveFixed(z, offset, day * DAY + minute * MINUTE);
  }

  lemma FixedRegularDay(z: Zone, w: Window, offset: int, day: int)
    requires FixedOffset(z, offset) && ValidWindow(w)
    ensures RegularDay(z, w, day)
  {
    hide At;
    FixedAt(z, offset, day, w.open);
    FixedAt(z, offset, day, w.close);
    FixedAt(z, offset, day + 1, w.open);
    FixedAt(z, offset, day, 720);
  }

  lemma FixedRegularAt(z: Zone, w: Window, offset: int, t: Instant)
    requires FixedOffset(z, offset) && ValidWindow(w)
    ensures RegularAt(z, w, t)
  {
    hide At;
    var day := DayOf(z, t);
    FixedAt(z, offset, day - 1, w.close);
    FixedAt(z, offset, day, w.open);
    FixedAt(z, offset, day, w.close);
    FixedAt(z, offset, day + 1, w.open);
  }

  /** A zone with one offset is regular for every window. */
  lemma FixedOffsetRegular(z: Zone, w: Window, offset: int)
    requires FixedOffset(z, offset) && ValidWindow(w)
    ensures Regular(z, w)
  {
    hide RegularDay, RegularAt;
    forall day
      ensures RegularDay(z, w, day)
    {
      FixedRegularDay(z, w, offset, day);
    }
    forall t
      ensures RegularAt(z, w, t)
    {
      FixedRegularAt(z, w, offset, t);
    }
  }

  lemma {:induction false} DaysInOrder(z: Zone, w: Window, day: int, later: int)
    requires Regular(z, w) && ValidWindow(w) && day < later
    ensures Close(z, w, day) <= Open(z, w, later)
    decreases later - day
  {
    assert RegularDay(z, w, day);
    if day + 1 < later {
      assert RegularDay(z, w, day + 1);
      DaysInOrder(z, w, day + 1, later);
    }
  }

  lemma DuringDay(z: Zone, w: Window, day: int, t: Instant)
    requires Regular(z, w) && ValidWindow(w)
    requires Open(z, w, day) <= t < Close(z, w, day)
    ensures DayOf(z, t) == day && MinuteOf(z, t) == w.open + (t - Open(z, w, day)) / MINUTE
    ensures w.open <= MinuteOf(z, t) < w.close
    ensures IsWithin(z, w, t) <==> IsWorkingDay(w, day)
  {
    hide Open, Close, DayOf, MinuteOf, NextNoon, Weekday;
    var e := DayOf(z, t);
    assert RegularAt(z, w, t) && RegularDay(z, w, e) && RegularDay(z, w, e - 1) && RegularDay(z, w, e + 1)
        && RegularDay(z, w, day);
    if e < day {
      DaysInOrder(z, w, e, day);
      if e + 1 < day {
        DaysInOrder(z, w, e + 1, day);
      }
    } else if day < e {
      DaysInOrder(z, w, day, e);
      if day < e - 1 {
        DaysInOrder(z, w, day, e - 1);
      }
    }
  }

  lemma BetweenDays(z: Zone, w: Window, day: int, t: Instant)
    requires Regular(z, w) && ValidWindow(w)
    requires Close(z, w, day) <= t < Open(z, w, day + 1)
    ensures !IsWithin(z, w, t)
  {
    hide Open, Close, DayOf, MinuteOf, NextNoon, Weekday;
    if IsWithin(z, w, t) {
      var e := DayOf(z, t);
      assert RegularAt(z, w, t) && RegularDay(z, w, e) && RegularDay(z, w, day) && RegularDay(z, w, day + 1);
      if e < day {
        DaysInOrder(z, w, e, day);
      } else if day + 1 < e {
        DaysInOrder(z, w, day + 1, e);
      }
    }
  }

  /** On a day off, or once closed, nothing is open until the next day's opening. */
  lemma AfterHours(z: Zone, w: Window, t: Instant)
    requires Regular(z, w) && ValidWindow(w)
    requires !IsWorkingDay(w, DayOf(z, t)) || MinuteOf(z, t) >= w.close
    ensures t < Open(z, w, DayOf(z, t) + 1)
    ensures forall u :: t <= u < Open(z, w, DayOf(z, t) + 1) ==> !IsWithin(z, w, u)
  {
    hide Open, Close, DayOf, MinuteOf, NextNoon, Weekday;
    var day := DayOf(z, t);
    assert RegularAt(z, w, t) && RegularDay(z, w, day - 1) && RegularDay(z, w, day) && RegularDay(z, w, day + 1);
    forall u | t <= u < Open(z, w, day + 1)
      ensures !IsWithin(z, w, u)
    {
      if u < Open(z, w, day) {
        BetweenDays(z, w, day - 1, u);
      } else if u < Close(z, w, day) {
        DuringDay(z, w, day, u);
      } else {
        BetweenDays(z, w, day, u);
      }
    }
  }

  /** Before opening, nothing is open until opening. */
  lemma BeforeHours(z: Zone, w: Window, t: Instant)
    requires Regular(z, w) && ValidWindow(w) && MinuteOf(z, t) < w.open
    ensures t < Open(z, w, DayOf(z, t))
    ensures forall u :: t <= u < Open(z, w, DayOf(z, t)) ==> !IsWithin(z, w, u)
  {
    hide Open, Close, DayOf, MinuteOf, NextNoon, Weekday;
    var day := DayOf(z, t);
    assert RegularAt(z, w, t) && day == day - 1 + 1;
    forall u | t <= u < Open(z, w, day)
      ensures !IsWithin(z, w, u)
    {
      BetweenDays(z, w, day - 1, u);
    }
  }

  lemma WeekHasWork(w: Window, day: int)
    requires ValidWindow(w)
    ensures exists e :: day < e <= day + 7 && IsWorkingDay(w, e)
  {
    var d :| d in w.days;
    var k := 1 + (d - Weekday(day + 1)) % 7;
    assert Weekday(day + k) == d;
    assert IsWorkingDay(w, day + k);
  }

  // ----- The set of open instants, counted -----

  /** How many milliseconds of `[from, to)` the shop is open. */
  function WorkingMs(z: Zone, w: Window, from: Instant, to: Instant): (n: nat)
    decreases to - from
  {
    if to <= from then 0
    else WorkingMs(z, w, from, to - 1) + (if IsWithin(z, w, to - 1) then 1 else 0)
  }

  lemma {:induction false} WorkingMsAdds(z: Zone, w: Window, a: Instant, b: Instant, c: Instant)
    requires a <= b <= c
    ensures WorkingMs(z, w, a, c) == WorkingMs(z, w, a, b) + WorkingMs(z, w, b, c)
    decreases c - b
  {
    if b < c {
      WorkingMsAdds(z, w, a, b, c - 1);
    }
  }

  lemma {:induction false} WorkingMsAll(z: Zone, w: Window, a: Instant, b: Instant)
    requires a <= b && forall t :: a <= t < b ==> IsWithin(z, w, t)
    ensures WorkingMs(z, w, a, b) == b - a
    decreases b - a
  {
    if a < b {
      WorkingMsAll(z, w, a, b - 1);
    }
  }

  lemma {:induction false} WorkingMsNone(z: Zone, w: Window, a: Instant, b: Instant)
    requires forall t :: a <= t < b ==> !IsWithin(z, w, t)
    ensures WorkingMs(z, w, a, b) == 0
    decreases b - a
  {
    if a < b {
      WorkingMsNone(z, w, a, b - 1);
    }
  }

  lemma {:induction false} WorkingMsZero(z: Zone, w: Window, a: Instant, b: Instant, t: Instant)
    requires WorkingMs(z, w, a, b) == 0 && a <= t < b
    ensures !IsWithin(z, w, t)
    decreases b - a
  {
    if t < b - 1 {
      WorkingMsZero(z, w, a, b - 1, t);
    }
  }

  // ----- The loops -----

  const MAX_DAY_STEPS := 400

  method OpeningOf(z: Zone, w: Window, t: Instant) returns (r: Instant)
    requires ValidWindow(w)
    ensures r == Open(z, w, DayOf(z, t))
  {
    var parts := ZonedParts(z, t);
    r := InstantFromZonedParts(z, Reading(parts.day, w.open / 60, w.open % 60, 0));
  }

  method NextLocalDay(z: Zone, t: Instant) returns (r: Instant)
    ensures r == NextNoon(z, DayOf(z, t))
  {
    var parts := ZonedParts(z, t);
    var noon := InstantFromZonedParts(z, Reading(parts.day, 12, 0, 0));
    r := noon + MINUTES_PER_DAY * MINUTE;
  }

  method NextOpening(z: Zone, w: Window, t: Instant) returns (r: Instant)
    requires ValidWindow(w) && Regular(z, w)
    ensures r == Open(z, w, DayOf(z, t) + 1)
  {
    var noon := NextLocalDay(z, t);
    r := OpeningOf(z, w, noon);
    assert RegularDay(z, w, DayOf(z, t));
  }

  /** `r` is the first open instant at or after `t`. */
  ghost predicate FirstOpenAt(z: Zone, w: Window, t: Instant, r: Instant) {
    t <= r && IsWithin(z, w, r) && forall u :: t <= u < r ==> !IsWithin(z, w, u)
  }

  lemma OpenIsWithin(z: Zone, w: Window, day: int)
    requires Regular(z, w) && ValidWindow(w)
    ensures DayOf(z, Open(z, w, day)) == day && MinuteOf(z, Open(z, w, day)) == w.open
    ensures IsWithin(z, w, Open(z, w, day)) <==> IsWorkingDay(w, day)
  {
    assert RegularDay(z, w, day);
  }

  method NextWorkingInstant(z: Zone, w: Window, t: Instant) returns (r: Instant)
    requires ValidWindow(w) && Regular(z, w)
    ensures FirstOpenAt(z, w, t, r)
    ensures r == t || exists day :: r == Open(z, w, day)
  {
    hide Regular, Open, DayOf, MinuteOf, Weekday, ValidWindow;
    var cursor := t;
    ghost var day := DayOf(z, t);
    var step := 0;
    while step < MAX_DAY_STEPS
      invariant 0 <= step <= 7
      invariant cursor == if step == 0 then t else Open(z, w, day + step)
      invariant t <= cursor && forall u :: t <= u < cursor ==> !IsWithin(z, w, u)
      invariant forall e :: day < e < day + step ==> !IsWorkingDay(w, e)
    {
      if step > 0 {
        OpenIsWithin(z, w, day + step);
      }
      if !IsWorkingDay(w, DayOf(z, cursor)) {
        if step == 7 {
          WeekHasWork(w, day);
          assert false;
        }
        AfterHours(z, w, cursor);
        cursor := NextOpening(z, w, cursor);
      } else {
        var now := MinuteOf(z, cursor);
        if now < w.open {
          BeforeHours(z, w, cursor);
          OpenIsWithin(z, w, DayOf(z, cursor));
          r := OpeningOf(z, w, cursor);
          return;
        }
        if now >= w.close {
          AfterHours(z, w, cursor);
          cursor := NextOpening(z, w, cursor);
        } else {
          return cursor;
        }
      }
      step := step + 1;
    }
    return cursor;
  }
}
