/**
 Counting working time and advancing by it: rank and select over the open
 instants, done a day at a time by loops that give up after 400 days.
 */
module WorkingMinutes {
  import opened Rounding
  import opened ZonedTime
  import opened WorkingHours

  lemma AtAligned(z: Zone, day: int, minute: int)
    ensures At(z, day, minute) % MINUTE == 0
  {
    hide ResolveFrom;
    var target := day * DAY + minute * MINUTE;
    assert target == (day * MINUTES_PER_DAY + minute) * MINUTE;
    ResolveFromAligned(z, target, target, 3);
  }

  lemma OpenAligned(z: Zone, w: Window, day: int)
    ensures Open(z, w, day) % MINUTE == 0 && Close(z, w, day) % MINUTE == 0
  {
    hide At;
    AtAligned(z, day, w.open);
    AtAligned(z, day, w.close);
  }

  /** Where an open instant sits in its day, to the minute. */
  lemma PlaceInDay(z: Zone, w: Window, t: Instant)
    requires Regular(z, w) && ValidWindow(w) && IsWithin(z, w, t)
    ensures var day := DayOf(z, t);
            && Open(z, w, day) <= FloorMinute(t) <= t < Close(z, w, day)
            && FloorMinute(t) == Open(z, w, day) + (MinuteOf(z, t) - w.open) * MINUTE
            && FloorMinute(t) + (w.close - MinuteOf(z, t)) * MINUTE == Close(z, w, day)
  {
    hide Open, Close, DayOf, MinuteOf, NextNoon, Weekday;
    var day := DayOf(z, t);
    assert RegularAt(z, w, t) && RegularDay(z, w, day);
    OpenAligned(z, w, day);
    var o := Open(z, w, day);
    assert (t - o) % MINUTE == t % MINUTE;
    assert t - o == (t - o) / MINUTE * MINUTE + t % MINUTE;
  }

  lemma StretchOpen(z: Zone, w: Window, day: int, a: Instant, b: Instant)
    requires Regular(z, w) && ValidWindow(w) && IsWorkingDay(w, day)
    requires Open(z, w, day) <= a <= b <= Close(z, w, day)
    ensures WorkingMs(z, w, a, b) == b - a
  {
    forall t | a <= t < b
      ensures IsWithin(z, w, t)
    {
      DuringDay(z, w, day, t);
    }
    WorkingMsAll(z, w, a, b);
  }

  lemma NightClosed(z: Zone, w: Window, day: int, a: Instant, b: Instant)
    requires Regular(z, w) && ValidWindow(w)
    requires Close(z, w, day) <= a && b <= Open(z, w, day + 1)
    ensures WorkingMs(z, w, a, b) == 0
  {
    forall t | a <= t < b
      ensures !IsWithin(z, w, t)
    {
      BetweenDays(z, w, day, t);
    }
    WorkingMsNone(z, w, a, b);
  }

  /** Hours start and end on whole minutes, so a minute is open or shut as a whole. */
  lemma MinutesAreWhole(z: Zone, w: Window, t: Instant, u: Instant)
    requires Regular(z, w) && ValidWindow(w) && FloorMinute(t) == FloorMinute(u) && IsWithin(z, w, t)
    ensures IsWithin(z, w, u)
  {
    hide Open, Close, DayOf, MinuteOf, NextNoon, Weekday;
    PlaceInDay(z, w, t);
    var day := DayOf(z, t);
    assert RegularDay(z, w, day);
    OpenAligned(z, w, day);
    DuringDay(z, w, day, u);
  }

  lemma NothingBeforeFirst(z: Zone, w: Window, t: Instant, n: Instant)
    requires Regular(z, w) && ValidWindow(w) && FirstOpenAt(z, w, t, n)
    ensures WorkingMs(z, w, FloorMinute(t), FloorMinute(n)) == 0
  {
    hide Regular, IsWithin, ValidWindow;
    forall u | FloorMinute(t) <= u < FloorMinute(n)
      ensures !IsWithin(z, w, u)
    {
      if u < t && IsWithin(z, w, u) {
        MinutesAreWhole(z, w, u, t);
      }
    }
    WorkingMsNone(z, w, FloorMinute(t), FloorMinute(n));
  }

  // ----- Advancing -----

  datatype Advanced = Refused | To(at: Instant)

  /** Working minutes the loop can spend before its step guard ends it, from first open instant `n`. */
  function Capacity(z: Zone, w: Window, n: Instant): int {
    w.close - MinuteOf(z, n) + (MAX_DAY_STEPS - 1) * (w.close - w.open)
  }

  /** The part of a minute that an advance from first open instant `n` ends with. */
  function Seconds(z: Zone, w: Window, n: Instant, minutes: int): int {
    if minutes < w.close - MinuteOf(z, n) then n % MINUTE else 0
  }

  /** Within one day, `k` minutes later is still open if the day has that much left. */
  lemma WithinTheDay(z: Zone, w: Window, t: Instant, k: int)
    requires Regular(z, w) && ValidWindow(w) && IsWithin(z, w, t) && 0 <= k <= w.close - MinuteOf(z, t)
    ensures WorkingMs(z, w, FloorMinute(t), FloorMinute(t) + k * MINUTE) == k * MINUTE
    ensures FloorMinute(t + k * MINUTE) == FloorMinute(t) + k * MINUTE
    ensures k < w.close - MinuteOf(z, t) ==> IsWithin(z, w, t + k * MINUTE)
  {
    hide Open, Close, DayOf, MinuteOf, NextNoon, Weekday;
    var day := DayOf(z, t);
    PlaceInDay(z, w, t);
    StretchOpen(z, w, day, FloorMinute(t), FloorMinute(t) + k * MINUTE);
    assert (t + k * MINUTE) % MINUTE == t % MINUTE;
    if k < w.close - MinuteOf(z, t) {
      DuringDay(z, w, day, t + k * MINUTE);
    }
  }

  /** From an open instant to the first opening of a later day: the rest of today, and nothing else. */
  lemma RestOfTheDay(z: Zone, w: Window, t: Instant, next: Instant)
    requires Regular(z, w) && ValidWindow(w) && IsWithin(z, w, t)
    requires FirstOpenAt(z, w, Open(z, w, DayOf(z, t) + 1), next)
    ensures WorkingMs(z, w, FloorMinute(t), next) == (w.close - MinuteOf(z, t)) * MINUTE
    ensures t < next
  {
    hide Open, Close, DayOf, MinuteOf, NextNoon, Weekday;
    var day := DayOf(z, t);
    PlaceInDay(z, w, t);
    assert RegularDay(z, w, day);
    WithinTheDay(z, w, t, w.close - MinuteOf(z, t));
    NightClosed(z, w, day, Close(z, w, day), Open(z, w, day + 1));
    WorkingMsNone(z, w, Open(z, w, day + 1), next);
    WorkingMsAdds(z, w, Close(z, w, day), Open(z, w, day + 1), next);
    WorkingMsAdds(z, w, FloorMinute(t), Close(z, w, day), next);
  }

  /** What is spent after this many day steps, beyond the first day's share. */
  function Spent(step: nat, length: int): int {
    if step <= 1 then 0 else Spent(step - 1, length) + length
  }

  lemma {:induction false} SpentInFull(step: nat, length: int)
    requires step > 0
    ensures Spent(step, length) == (step - 1) * length
  {
    if step > 1 {
      SpentInFull(step - 1, length);
    }
  }

  lemma {:induction false} SpentGrows(step: nat, more: nat, length: nat)
    requires step <= more
    ensures Spent(step, length) <= Spent(more, length)
    decreases more
  {
    if step < more {
      SpentGrows(step, more - 1, length);
    }
  }

  lemma SpentUpTo(step: nat, length: nat)
    requires step <= MAX_DAY_STEPS
    ensures Spent(step, length) <= (MAX_DAY_STEPS - 1) * length
    ensures step == MAX_DAY_STEPS ==> Spent(step, length) == (MAX_DAY_STEPS - 1) * length
  {
    SpentGrows(step, MAX_DAY_STEPS, length);
    SpentInFull(MAX_DAY_STEPS, length);
  }

  /** The counting that goes with moving on to the next working day. */
  lemma NextDayCount(z: Zone, w: Window, t: Instant, last: Instant, cursor: Instant)
    requires Regular(z, w) && ValidWindow(w) && IsWithin(z, w, last) && FloorMinute(t) <= FloorMinute(last)
    requires FirstOpenAt(z, w, Open(z, w, DayOf(z, last) + 1), cursor)
    requires exists e :: cursor == Open(z, w, e)
    ensures MinuteOf(z, cursor) == w.open && cursor % MINUTE == 0 && last < cursor
    ensures FloorMinute(t) <= FloorMinute(cursor)
    ensures WorkingMs(z, w, FloorMinute(t), FloorMinute(cursor))
         == WorkingMs(z, w, FloorMinute(t), FloorMinute(last)) + (w.close - MinuteOf(z, last)) * MINUTE
  {
    hide Regular, Open, DayOf, MinuteOf, Weekday, IsWithin;
    var e :| cursor == Open(z, w, e);
    OpenIsWithin(z, w, e);
    OpenAligned(z, w, e);
    RestOfTheDay(z, w, last, cursor);
    WorkingMsAdds(z, w, FloorMinute(t), FloorMinute(last), cursor);
  }

  lemma RoundNonNegative(x: real)
    requires x >= 0.0
    ensures Round(x) >= 0
  {
  }

  lemma FirstIsUnique(z: Zone, w: Window, t: Instant, n: Instant)
    requires FirstOpenAt(z, w, t, n)
    ensures forall n' :: FirstOpenAt(z, w, t, n') ==> n' == n
  {
  }

  /**
   `t` advanced by `minutes` of shop time: the open instant with exactly that
   many working minutes before it, up to what 400 day steps can spend. It keeps
   the seconds of its start while the first day lasts, and no longer.
   */
  method AddWorkingMinutes(z: Zone, w: Window, t: Instant, minutes: real) returns (r: Advanced)
    requires ValidWindow(w) && Regular(z, w)
    ensures r.Refused? <==> minutes < 0.0
    ensures r.To? ==> t <= r.at && IsWithin(z, w, r.at)
    ensures r.To? ==> forall n :: FirstOpenAt(z, w, t, n) ==>
              WorkingMs(z, w, FloorMinute(t), FloorMinute(r.at))
              == MINUTE * (if Round(minutes) <= Capacity(z, w, n) then Round(minutes) else Capacity(z, w, n))
              && r.at % MINUTE == Seconds(z, w, n, Round(minutes))
  {
    if minutes < 0.0 {
      return Refused;
    }
    RoundNonNegative(minutes);
    var n := NextWorkingInstant(z, w, t);
    FirstIsUnique(z, w, t, n);
    var at := Advance(z, w, t, n, Round(minutes));
    return To(at);
  }

  /** The state of the walk after `step` days: what is left, and that the rest has been walked past. */
  ghost predicate Walked(z: Zone, w: Window, t: Instant, n: Instant, minutes: nat, step: nat, cursor: Instant,
      remaining: int) {
    && 0 <= remaining <= minutes
    && IsWithin(z, w, cursor) && t <= cursor && FloorMinute(t) <= FloorMinute(cursor)
    && WorkingMs(z, w, FloorMinute(t), FloorMinute(cursor)) == MINUTE * (minutes - remaining)
    && (if step == 0 then remaining == minutes && cursor == n
        else && MinuteOf(z, cursor) == w.open && cursor % MINUTE == 0
             && minutes >= w.close - MinuteOf(z, n)
             && minutes - remaining == w.close - MinuteOf(z, n) + Spent(step, w.close - w.open))
  }

  lemma WalkStarts(z: Zone, w: Window, t: Instant, n: Instant, minutes: nat)
    requires ValidWindow(w) && Regular(z, w) && FirstOpenAt(z, w, t, n)
    ensures Walked(z, w, t, n, minutes, 0, n, minutes)
  {
    hide Regular, IsWithin, ValidWindow, WorkingMs;
    NothingBeforeFirst(z, w, t, n);
  }

  lemma WalkGoesOn(z: Zone, w: Window, t: Instant, n: Instant, minutes: nat, step: nat, cursor: Instant,
      remaining: int, next: Instant)
    requires ValidWindow(w) && Regular(z, w) && Walked(z, w, t, n, minutes, step, cursor, remaining)
    requires remaining >= w.close - MinuteOf(z, cursor)
    requires FirstOpenAt(z, w, Open(z, w, DayOf(z, cursor) + 1), next)
    requires next == Open(z, w, DayOf(z, cursor) + 1) || exists e :: next == Open(z, w, e)
    ensures Walked(z, w, t, n, minutes, step + 1, next, remaining - (w.close - MinuteOf(z, cursor)))
  {
    NextDayCount(z, w, t, cursor, next);
  }

  /** The walk ends inside this day. */
  lemma WalkEnds(z: Zone, w: Window, t: Instant, n: Instant, minutes: nat, step: nat, cursor: Instant, remaining: int)
    requires ValidWindow(w) && Regular(z, w) && Walked(z, w, t, n, minutes, step, cursor, remaining)
    requires step < MAX_DAY_STEPS && remaining < w.close - MinuteOf(z, cursor)
    ensures var r := cursor + remaining * MINUTE;
            && t <= r && IsWithin(z, w, r)
            && minutes <= Capacity(z, w, n)
            && r % MINUTE == Seconds(z, w, n, minutes)
            && WorkingMs(z, w, FloorMinute(t), FloorMinute(r)) == MINUTE * minutes
  {
    hide Regular, DayOf, MinuteOf, WorkingMs;
    WithinTheDay(z, w, cursor, remaining);
    WorkingMsAdds(z, w, FloorMinute(t), FloorMinute(cursor), FloorMinute(cursor) + remaining * MINUTE);
    SpentUpTo(step + 1, w.close - w.open);
  }

  lemma WalkGivesUp(z: Zone, w: Window, t: Instant, n: Instant, minutes: nat, cursor: Instant, remaining: int)
    requires ValidWindow(w) && Walked(z, w, t, n, minutes, MAX_DAY_STEPS, cursor, remaining)
    ensures Capacity(z, w, n) <= minutes
    ensures cursor % MINUTE == Seconds(z, w, n, minutes)
    ensures WorkingMs(z, w, FloorMinute(t), FloorMinute(cursor)) == MINUTE * Capacity(z, w, n)
  {
    hide MinuteOf, WorkingMs, Spent;
    SpentUpTo(MAX_DAY_STEPS, w.close - w.open);
  }

  method Advance(z: Zone, w: Window, ghost t: Instant, n: Instant, minutes: nat) returns (r: Instant)
    requires ValidWindow(w) && Regular(z, w) && FirstOpenAt(z, w, t, n)
    ensures t <= r && IsWithin(z, w, r)
    ensures WorkingMs(z, w, FloorMinute(t), FloorMinute(r))
         == MINUTE * (if minutes <= Capacity(z, w, n) then minutes else Capacity(z, w, n))
    ensures r % MINUTE == Seconds(z, w, n, minutes)
  {
    hide Regular, Open, DayOf, MinuteOf, Weekday, ValidWindow, Capacity, WorkingMs, Seconds;
    WalkStarts(z, w, t, n, minutes);
    var cursor := n;
    var remaining := minutes as int;
    var step := 0;
    while step < MAX_DAY_STEPS
      invariant 0 <= step <= MAX_DAY_STEPS
      invariant Walked(z, w, t, n, minutes, step, cursor, remaining)
    {
      if remaining == 0 {
        WalkEnds(z, w, t, n, minutes, step, cursor, remaining);
        return cursor;
      }
      var available := w.close - MinuteOf(z, cursor);
      if remaining < available {
        WalkEnds(z, w, t, n, minutes, step, cursor, remaining);
        return cursor + remaining * MINUTE;
      }
      var opening := NextOpening(z, w, cursor);
      var next := NextWorkingInstant(z, w, opening);
      WalkGoesOn(z, w, t, n, minutes, step, cursor, remaining, next);
      remaining := remaining - available;
      cursor := next;
      step := step + 1;
    }
    WalkGivesUp(z, w, t, n, minutes, cursor, remaining);
    return cursor;
  }
}
