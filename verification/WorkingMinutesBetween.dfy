/**
 Working minutes elapsed between two instants, and how counting and advancing
 undo each other.
 */
module WorkingMinutesBetween {
  import opened Rounding
  import opened ZonedTime
  import opened WorkingHours
  import opened WorkingMinutes

  function Earlier(a: Instant, b: Instant): Instant {
    if a < b then a else b
  }

  /** Milliseconds to whole minutes. */
  function RoundToMinutes(ms: int): int {
    Round(ms as real / MINUTE as real)
  }

  predicate Aligned(t: Instant) {
    t % MINUTE == 0
  }

  lemma RoundingError(ms: int)
    ensures -MINUTE / 2 <= MINUTE * RoundToMinutes(ms) - ms <= MINUTE / 2
    ensures ms % MINUTE == 0 ==> MINUTE * RoundToMinutes(ms) == ms
  {
  }

  /** The days the loop looks at before its step guard ends it stop here. */
  function Horizon(z: Zone, w: Window, from: Instant): Instant {
    Open(z, w, DayOf(z, from) + MAX_DAY_STEPS)
  }

  /** `total` minutes stand for the working time in `[from, to)`: exactly on whole minutes, and to a minute always. */
  predicate Stands(z: Zone, w: Window, from: Instant, to: Instant, total: int, aligned: bool, slack: int) {
    var error := MINUTE * total - WorkingMs(z, w, from, to);
    -slack <= error <= slack && (aligned ==> error == 0)
  }

  /** Where the count of a day begins: at `from` on the first, and then at each day's opening. */
  function Cut(z: Zone, w: Window, from: Instant, day: nat): Instant {
    if day == 0 then from else Open(z, w, DayOf(z, from) + day)
  }

  /** Each day's working time up to `to`, rounded day by day. */
  function DayByDay(z: Zone, w: Window, from: Instant, to: Instant, days: nat): int {
    if days == 0 then 0
    else
      DayByDay(z, w, from, to, days - 1)
      + RoundToMinutes(WorkingMs(z, w, Cut(z, w, from, days - 1), Earlier(Cut(z, w, from, days), to)))
  }

  /** The state of the tally after `step` days. */
  ghost predicate Tallied(z: Zone, w: Window, from: Instant, to: Instant, step: nat, cursor: Instant, total: int) {
    && from <= cursor
    && cursor == Cut(z, w, from, step)
    && (step == 0 ==> total == 0)
    && total == DayByDay(z, w, from, to, step)
    && Stands(z, w, from, Earlier(cursor, to), total, Aligned(from) && Aligned(to),
              if step == 0 then 0 else if cursor < to then MINUTE / 2 else MINUTE)
  }

  lemma TallyStarts(z: Zone, w: Window, from: Instant, to: Instant)
    ensures Tallied(z, w, from, to, 0, from, 0)
  {
  }

  /** A day with `length` open milliseconds ahead, of which the loop adds the rounded count. */
  lemma TallyGoesOn(z: Zone, w: Window, from: Instant, to: Instant, step: nat, cursor: Instant, total: int,
      next: Instant, length: int)
    requires Tallied(z, w, from, to, step, cursor, total) && cursor < to && cursor < next
    requires next == Open(z, w, DayOf(z, from) + (step + 1))
    requires 0 <= length == WorkingMs(z, w, cursor, Earlier(next, to))
    requires (Aligned(cursor) && (next < to || Aligned(to))) ==> length % MINUTE == 0
    ensures Tallied(z, w, from, to, step + 1, next, total + RoundToMinutes(length))
  {
    hide Open, DayOf, WorkingMs, RoundToMinutes;
    if step > 0 {
      OpenAligned(z, w, DayOf(z, from) + step);
    }
    RoundingError(length);
    WorkingMsAdds(z, w, from, cursor, Earlier(next, to));
  }

  /** The open stretch of a day, seen from `cursor`, up to `to`. */
  lemma DayLength(z: Zone, w: Window, day: int, cursor: Instant, start: Instant, to: Instant)
    requires ValidWindow(w) && Regular(z, w) && IsWorkingDay(w, day)
    requires cursor <= start && cursor < to && Open(z, w, day) <= start < Close(z, w, day)
    requires forall u :: cursor <= u < start ==> !IsWithin(z, w, u)
    ensures var end := Earlier(Close(z, w, day), to);
            WorkingMs(z, w, cursor, Earlier(Open(z, w, day + 1), to)) == if end > start then end - start else 0
  {
    hide Open, Close, DayOf, MinuteOf, NextNoon, Weekday;
    assert RegularDay(z, w, day);
    var end := Earlier(Close(z, w, day), to);
    var last := Earlier(Open(z, w, day + 1), to);
    if end > start {
      WorkingMsNone(z, w, cursor, start);
      StretchOpen(z, w, day, start, end);
      WorkingMsAdds(z, w, cursor, start, end);
      if end < last {
        NightClosed(z, w, day, end, last);
      }
      WorkingMsAdds(z, w, cursor, end, last);
    } else {
      WorkingMsNone(z, w, cursor, last);
    }
  }

  lemma DayHasHours(z: Zone, w: Window, day: int)
    requires ValidWindow(w) && Regular(z, w)
    ensures Open(z, w, day) < Close(z, w, day) <= Open(z, w, day + 1)
  {
    hide Open, Close;
    assert RegularDay(z, w, day);
  }

  lemma InHours(z: Zone, w: Window, t: Instant)
    requires ValidWindow(w) && Regular(z, w) && w.open <= MinuteOf(z, t) < w.close
    ensures Open(z, w, DayOf(z, t)) <= t < Close(z, w, DayOf(z, t))
  {
    hide Open, Close, DayOf, MinuteOf;
    assert RegularAt(z, w, t);
  }

  /** Closing time on the local day `t` falls in. */
  method ClosingOf(z: Zone, w: Window, t: Instant) returns (r: Instant)
    requires ValidWindow(w)
    ensures r == Close(z, w, DayOf(z, t))
  {
    var parts := ZonedParts(z, t);
    r := InstantFromZonedParts(z, Reading(parts.day, w.close / 60, w.close % 60, 0));
  }

  method WorkingMinutesBetween(z: Zone, w: Window, from: Instant, to: Instant) returns (total: int)
    requires ValidWindow(w) && Regular(z, w)
    ensures to <= from ==> total == 0
    ensures from < to ==> total == DayByDay(z, w, from, to, MAX_DAY_STEPS)
    ensures Stands(z, w, from, Earlier(to, Horizon(z, w, from)), total, Aligned(from) && Aligned(to), MINUTE)
  {
    hide Regular, Open, Close, DayOf, MinuteOf, Weekday, ValidWindow, IsWithin, Tallied, WorkingMs;
    if to <= from {
      WorkingMsNone(z, w, from, Earlier(to, Horizon(z, w, from)));
      return 0;
    }
    ghost var first := DayOf(z, from);
    var cursor := from;
    total := 0;
    TallyStarts(z, w, from, to);
    var step := 0;
    while step < MAX_DAY_STEPS
      invariant 0 <= step <= MAX_DAY_STEPS
      invariant Tallied(z, w, from, to, step, cursor, total)
    {
      if cursor >= to {
        TallyEnds(z, w, from, to, step, cursor, total);
        return total;
      }
      var next, added := TallyDay(z, w, from, to, step, cursor, total);
      total := total + added;
      cursor := next;
      step := step + 1;
    }
    TallyEnds(z, w, from, to, step, cursor, total);
  }

  lemma TallyEnds(z: Zone, w: Window, from: Instant, to: Instant, step: nat, cursor: Instant, total: int)
    requires ValidWindow(w) && Regular(z, w) && from < to && step <= MAX_DAY_STEPS
    requires Tallied(z, w, from, to, step, cursor, total) && (cursor >= to || step == MAX_DAY_STEPS)
    ensures total == DayByDay(z, w, from, to, MAX_DAY_STEPS)
    ensures Stands(z, w, from, Earlier(to, Horizon(z, w, from)), total, Aligned(from) && Aligned(to), MINUTE)
  {
    hide Open, Close, DayOf, MinuteOf, WorkingMs;
    var first := DayOf(z, from);
    if step < MAX_DAY_STEPS {
      assert RegularDay(z, w, first + step);
      DaysInOrder(z, w, first + step, first + MAX_DAY_STEPS);
      DayHasHours(z, w, first + step);
      DaysPastNothing(z, w, from, to, step, MAX_DAY_STEPS);
    }
  }

  /** Days that begin at or after `to` add nothing. */
  lemma {:induction false} DaysPastNothing(z: Zone, w: Window, from: Instant, to: Instant, step: nat, days: nat)
    requires ValidWindow(w) && Regular(z, w) && from < to && step <= days && to <= Cut(z, w, from, step)
    ensures DayByDay(z, w, from, to, days) == DayByDay(z, w, from, to, step)
    ensures to <= Cut(z, w, from, days)
    decreases days
  {
    hide Open, DayOf, WorkingMs, Regular;
    if step < days {
      DaysPastNothing(z, w, from, to, step, days - 1);
      DayHasHours(z, w, DayOf(z, from) + (days - 1));
      WorkingMsNone(z, w, Cut(z, w, from, days - 1), to);
      RoundingError(0);
    }
  }

  /** One turn of the loop: the minutes of the cursor's day, and the next day's opening. */
  method TallyDay(z: Zone, w: Window, from: Instant, to: Instant, step: nat, cursor: Instant, total: int)
    returns (next: Instant, added: int)
    requires ValidWindow(w) && Regular(z, w)
    requires Tallied(z, w, from, to, step, cursor, total) && cursor < to
    ensures Tallied(z, w, from, to, step + 1, next, total + added)
  {
    hide Regular, Open, Close, DayOf, MinuteOf, Weekday, ValidWindow, IsWithin, WorkingMs, Stands, RoundToMinutes;
    if step > 0 {
      OpenIsWithin(z, w, DayOf(z, from) + step);
    }
    assert DayOf(z, cursor) == DayOf(z, from) + step;
    var now := MinuteOf(z, cursor);
    if !IsWorkingDay(w, DayOf(z, cursor)) || now >= w.close {
      AfterHours(z, w, cursor);
      next := NextOpening(z, w, cursor);
      WorkingMsNone(z, w, cursor, Earlier(next, to));
      TallyGoesOn(z, w, from, to, step, cursor, total, next, 0);
      RoundingError(0);
      added := 0;
    } else {
      var length;
      next, length := MeasureDay(z, w, cursor, to);
      TallyGoesOn(z, w, from, to, step, cursor, total, next, length);
      added := RoundToMinutes(length);
    }
  }

  /** The open stretch still ahead on a working day before closing time, up to `to`; and the next opening. */
  method MeasureDay(z: Zone, w: Window, cursor: Instant, to: Instant) returns (next: Instant, length: int)
    requires ValidWindow(w) && Regular(z, w) && cursor < to
    requires IsWorkingDay(w, DayOf(z, cursor)) && MinuteOf(z, cursor) < w.close
    ensures next == Open(z, w, DayOf(z, cursor) + 1) && cursor < next
    ensures 0 <= length == WorkingMs(z, w, cursor, Earlier(next, to))
    ensures (Aligned(cursor) && (next < to || Aligned(to))) ==> length % MINUTE == 0
  {
    hide Regular, Open, Close, DayOf, MinuteOf, Weekday, ValidWindow, IsWithin, WorkingMs;
    ghost var day := DayOf(z, cursor);
    var dayStart := cursor;
    if MinuteOf(z, cursor) < w.open {
      BeforeHours(z, w, cursor);
      dayStart := OpeningOf(z, w, cursor);
    } else {
      InHours(z, w, cursor);
    }
    DayHasHours(z, w, day);
    DuringDay(z, w, day, dayStart);
    var dayEnd := ClosingOf(z, w, dayStart);
    var segmentEnd := Earlier(dayEnd, to);
    length := if segmentEnd > dayStart then segmentEnd - dayStart else 0;
    DayLength(z, w, day, cursor, dayStart, to);
    next := NextOpening(z, w, dayStart);
    OpenAligned(z, w, day);
    AlignedLength(dayStart, segmentEnd);
  }

  lemma AlignedLength(a: Instant, b: Instant)
    ensures Aligned(a) && Aligned(b) ==> (b - a) % MINUTE == 0
  {
  }

  // ----- Counting and advancing undo each other -----

  /** `r` is `t` advanced by `m` working minutes: open, and with exactly that much working time in between. */
  ghost predicate IsAdvance(z: Zone, w: Window, t: Instant, m: int, r: Instant) {
    t <= r && Aligned(r) && IsWithin(z, w, r) && WorkingMs(z, w, t, r) == MINUTE * m
  }

  /** From a whole minute the first open instant is on one too. */
  lemma FirstAligned(z: Zone, w: Window, t: Instant, n: Instant)
    requires Regular(z, w) && ValidWindow(w) && Aligned(t) && FirstOpenAt(z, w, t, n)
    ensures Aligned(n)
  {
    hide Regular, IsWithin, ValidWindow;
    if !Aligned(n) {
      MinutesAreWhole(z, w, n, FloorMinute(n));
    }
  }

  /** What `AddWorkingMinutes` promises, from a whole minute and within its capacity, is an advance. */
  lemma AdvancesFromWholeMinutes(z: Zone, w: Window, t: Instant, n: Instant, m: nat, r: Instant)
    requires Regular(z, w) && ValidWindow(w) && Aligned(t) && t <= r && IsWithin(z, w, r)
    requires FirstOpenAt(z, w, t, n) && r % MINUTE == Seconds(z, w, n, m)
    requires WorkingMs(z, w, FloorMinute(t), FloorMinute(r)) == MINUTE * m
    ensures IsAdvance(z, w, t, m, r)
  {
    hide Regular, IsWithin, ValidWindow, WorkingMs, MinuteOf;
    FirstAligned(z, w, t, n);
  }

  /** Two open instants with the same count are the same: there is only one advance. */
  lemma AdvanceUnique(z: Zone, w: Window, t: Instant, m: int, r: Instant, s: Instant)
    requires IsAdvance(z, w, t, m, r) && IsAdvance(z, w, t, m, s)
    ensures r == s
  {
    if r < s {
      WorkingMsAdds(z, w, t, r, s);
      WorkingMsZero(z, w, r, s, r);
    } else if s < r {
      WorkingMsAdds(z, w, t, s, r);
      WorkingMsZero(z, w, s, r, s);
    }
  }

  /** Advancing by `a` and then by `b` is advancing by `a + b`. */
  lemma AdvanceComposes(z: Zone, w: Window, t: Instant, a: int, b: int, r: Instant, s: Instant)
    requires IsAdvance(z, w, t, a, r) && IsAdvance(z, w, r, b, s)
    ensures IsAdvance(z, w, t, a + b, s)
  {
    WorkingMsAdds(z, w, t, r, s);
  }

  /** A later start or a longer wait never ends earlier, and a longer wait ends later. */
  lemma AdvanceMonotone(z: Zone, w: Window, t: Instant, u: Instant, a: int, b: int, r: Instant, s: Instant)
    requires IsAdvance(z, w, t, a, r) && IsAdvance(z, w, u, b, s) && t <= u && a <= b
    ensures r <= s && (a < b ==> r < s)
  {
    if s < r {
      WorkingMsAdds(z, w, t, u, s);
      WorkingMsAdds(z, w, t, s, r);
      WorkingMsZero(z, w, s, r, s);
    }
    if r == s && a < b {
      WorkingMsAdds(z, w, t, u, s);
    }
  }

  /** Counting what an advance covers gives back the minutes it was asked for. */
  lemma CountUndoesAdvance(z: Zone, w: Window, t: Instant, m: int, r: Instant, total: int, slack: int)
    requires Aligned(t) && IsAdvance(z, w, t, m, r)
    requires Stands(z, w, t, r, total, true, slack)
    ensures total == m
  {
  }

  /** Advancing by what was counted up to an open instant arrives there. */
  lemma AdvanceUndoesCount(z: Zone, w: Window, t: Instant, to: Instant, total: int, r: Instant)
    requires Aligned(to) && t <= to && IsWithin(z, w, to) && MINUTE * total == WorkingMs(z, w, t, to)
    requires IsAdvance(z, w, t, total, r)
    ensures r == to
  {
    AdvanceUnique(z, w, t, total, r, to);
  }

  /** Elapsed working time adds up over adjacent intervals. */
  lemma CountsAdd(z: Zone, w: Window, a: Instant, b: Instant, c: Instant, first: int, second: int, whole: int,
      slack: int)
    requires a <= b <= c
    requires Stands(z, w, a, b, first, true, slack) && Stands(z, w, b, c, second, true, slack)
    requires Stands(z, w, a, c, whole, true, slack)
    ensures whole == first + second
  {
    WorkingMsAdds(z, w, a, b, c);
  }

  /** The 400-day guard loses working time exactly when there is some beyond the horizon. */
  lemma GuardExact(z: Zone, w: Window, from: Instant, to: Instant, total: int)
    requires from <= Horizon(z, w, from) <= to
    requires Stands(z, w, from, Earlier(to, Horizon(z, w, from)), total, true, MINUTE)
    ensures MINUTE * total == WorkingMs(z, w, from, to) <==> forall t :: Horizon(z, w, from) <= t < to ==>
        !IsWithin(z, w, t)
  {
    var h := Horizon(z, w, from);
    hide Horizon, IsWithin;
    WorkingMsAdds(z, w, from, h, to);
    if WorkingMs(z, w, h, to) == 0 {
      forall t | h <= t < to
        ensures !IsWithin(z, w, t)
      {
        WorkingMsZero(z, w, h, to, t);
      }
    } else if forall t :: h <= t < to ==> !IsWithin(z, w, t) {
      WorkingMsNone(z, w, h, to);
    }
  }

  // ----- The two loops, one after the other -----

  /** Add and then count: within the reach of both loops the minutes come back. */
  method AddThenCount(z: Zone, w: Window, t: Instant, m: nat) returns (at: Instant, total: int)
    requires ValidWindow(w) && Regular(z, w) && Aligned(t)
    ensures t <= at && Aligned(at) && IsWithin(z, w, at)
    ensures m <= FullDays(w) && at <= Horizon(z, w, t) ==> total == m
  {
    hide Regular, ValidWindow, IsWithin, WorkingMs, Open, DayOf, MinuteOf, Horizon, DayByDay, FullDays;
    at := AdvanceBy(z, w, t, m);
    total := WorkingMinutesBetween(z, w, t, at);
    if m <= FullDays(w) && at <= Horizon(z, w, t) {
      CountUndoesAdvance(z, w, t, m, at, total, MINUTE);
    }
  }

  /** What 399 full days hold: every walk can spend it, wherever it starts. */
  function FullDays(w: Window): int {
    (MAX_DAY_STEPS - 1) * (w.close - w.open)
  }

  /** Advancing by a whole number of minutes from a whole minute. */
  method AdvanceBy(z: Zone, w: Window, t: Instant, m: nat) returns (at: Instant)
    requires ValidWindow(w) && Regular(z, w) && Aligned(t)
    ensures t <= at && Aligned(at) && IsWithin(z, w, at)
    ensures m <= FullDays(w) ==> IsAdvance(z, w, t, m, at)
  {
    hide Regular, ValidWindow, IsWithin, WorkingMs, MinuteOf, Capacity, Round, FullDays;
    var n := NextWorkingInstant(z, w, t);
    var r := AddWorkingMinutes(z, w, t, m as real);
    at := r.at;
    WholeRounds(m);
    FirstAligned(z, w, t, n);
    FullDaysFit(z, w, n);
    if m <= FullDays(w) {
      AdvancesFromWholeMinutes(z, w, t, n, m, at);
    }
  }

  lemma FullDaysFit(z: Zone, w: Window, n: Instant)
    requires IsWithin(z, w, n)
    ensures FullDays(w) <= Capacity(z, w, n)
  {
    hide MinuteOf;
  }

  /** Adding a and then b minutes arrives where adding a + b does, up to 399 full days. */
  method AddTwice(z: Zone, w: Window, t: Instant, a: nat, b: nat) returns (twice: Instant, once: Instant)
    requires ValidWindow(w) && Regular(z, w) && Aligned(t)
    ensures a + b <= FullDays(w) ==> twice == once
  {
    hide Regular, ValidWindow, IsWithin, IsAdvance, FullDays;
    var first := AdvanceBy(z, w, t, a);
    twice := AdvanceBy(z, w, first, b);
    once := AdvanceBy(z, w, t, a + b);
    if a + b <= FullDays(w) {
      AdvanceComposes(z, w, t, a, b, first, twice);
      AdvanceUnique(z, w, t, a + b, twice, once);
    }
  }

  /**
   Counting to a later instant is counting to one between and on from there, while neither start's horizon is
   passed.
   */
  method CountInParts(z: Zone, w: Window, a: Instant, b: Instant, c: Instant)
    returns (first: int, second: int, whole: int)
    requires ValidWindow(w) && Regular(z, w) && Aligned(a) && Aligned(b) && Aligned(c) && a <= b <= c
    ensures c <= Horizon(z, w, a) && c <= Horizon(z, w, b) ==> whole == first + second
  {
    hide Regular, ValidWindow, IsWithin, WorkingMs, Open, DayOf, MinuteOf, Horizon, DayByDay;
    first := WorkingMinutesBetween(z, w, a, b);
    second := WorkingMinutesBetween(z, w, b, c);
    whole := WorkingMinutesBetween(z, w, a, c);
    if c <= Horizon(z, w, a) && c <= Horizon(z, w, b) {
      CountsAdd(z, w, a, b, c, first, second, whole, MINUTE);
    }
  }
}
