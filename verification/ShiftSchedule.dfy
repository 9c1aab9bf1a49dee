/**
 A planned shift is stored as a start instant and two times of day
 (backend/app/core/shift_rules.py). This module models the encoding, the
 decoding, and the rejections on the way in, and proves that the two functions
 are inverse to each other.
 */
module ShiftSchedule {
  import opened Wrappers

  const MINUTE := 60_000_000
  const DAY := 1440 * MINUTE
  /** 0001-01-01 up to and including 9999-12-31. */
  const LIMIT := 3_652_059 * DAY

  /** A naive datetime: microseconds since the first representable instant. */
  type Instant = t: int | 0 <= t < LIMIT witness 0

  type TimeOfDay = t: int | 0 <= t < DAY witness 0

  /** A datetime as callers send it: already naive, or with a UTC offset. */
  datatype Stamp = Naive(at: Instant) | Aware(local: Instant, offset: int)

  datatype ScheduleError = OutOfRange | BadDuration

  datatype Columns = Columns(shiftDate: Instant, startTime: TimeOfDay, endTime: TimeOfDay)

  function At(t: int): Result<Instant, ScheduleError> {
    if 0 <= t < LIMIT then Success(t) else Failure(OutOfRange)
  }

  function UtcNaive(value: Stamp): Result<Instant, ScheduleError> {
    match value
    case Naive(at) => Success(at)
    case Aware(local, offset) => At(local - offset)
  }

  /** 23:59:00 of the start's day, or of the next one when the start is not before it. */
  function DefaultEnd(start: Instant): Result<Instant, ScheduleError> {
    var end := start / DAY * DAY + 1439 * MINUTE;
    if end <= start then At(end + DAY) else At(end)
  }

  function EndOf(start: Instant, end: Option<Stamp>): Result<Instant, ScheduleError> {
    match end
    case None => DefaultEnd(start)
    case Some(stamp) => UtcNaive(stamp)
  }

  function ScheduleColumns(start: Stamp, end: Option<Stamp>): Result<Columns, ScheduleError> {
    match UtcNaive(start)
    case Failure(e) => Failure(e)
    case Success(s) =>
      match EndOf(s, end)
      case Failure(e) => Failure(e)
      case Success(e) =>
        if e - s <= 0 || e - s > DAY then Failure(BadDuration)
        else Success(Columns(s, s % DAY, e % DAY))
  }

  function PlannedDatetimes(c: Columns): Result<(Instant, Instant), ScheduleError> {
    var midnight := c.shiftDate / DAY * DAY;
    var start: Instant := midnight + c.startTime;
    var end: Instant := midnight + c.endTime;
    if end <= start then
      match At(end + DAY)
      case Failure(e) => Failure(e)
      case Success(next) => Success((start, next))
    else Success((start, end))
  }

  /** The instants a caller asked for, when both are representable. */
  ghost predicate Asked(start: Stamp, end: Option<Stamp>, s: Instant, e: Instant) {
    UtcNaive(start) == Success(s) && EndOf(s, end) == Success(e)
  }

  /** The instant of a stamp in UTC, as far as it can be represented: 86400 million
      microseconds for each of 3652059 days. */
  predicate Denotes(stamp: Stamp, t: int) {
    && t == (match stamp case Naive(at) => at as int case Aware(local, offset) => local - offset)
    && 0 <= t < 86_400_000_000 * 3_652_059
  }

  /** An end as given, or else the first 23:59 after the start. */
  predicate EndsAt(start: int, end: Option<Stamp>, e: int) {
    match end
    case Some(stamp) => Denotes(stamp, e)
    case None => start < e <= start + 86_400_000_000 && e % 86_400_000_000 == 86_340_000_000 && e < 86_400_000_000 * 3_652_059
  }

  /** Days and time of day of an instant. */
  lemma {:induction false} Split(t: int, d: int, r: int)
    requires t == d * DAY + r && 0 <= r < DAY
    ensures t / DAY == d && t % DAY == r
  {
  }

  lemma {:induction false} Whole(t: int)
    ensures t == t / DAY * DAY + t % DAY && 0 <= t % DAY < DAY
  {
  }

  /** An instant at most a day later is on the same day or, at no later a time of day, on the next. */
  lemma {:induction false} WithinADay(s: int, e: int, d: int, r: int, d': int, r': int)
    requires s == d * DAY + r && e == d' * DAY + r' && 0 <= r < DAY && 0 <= r' < DAY
    ensures s < e <= s + DAY <==> (d' == d && r < r') || (d' == d + 1 && r' <= r)
  {
  }

  lemma {:induction false} DefaultEndIs(s: Instant, e: Instant)
    ensures DefaultEnd(s) == Success(e) <==> s < e <= s + DAY && e % DAY == 1439 * MINUTE
  {
    var d, r, d', r' := s / DAY, s % DAY, e / DAY, e % DAY;
    Whole(s);
    Whole(e);
    WithinADay(s, e, d, r, d', r');
    Split(d * DAY + 1439 * MINUTE, d, 1439 * MINUTE);
    Split((d + 1) * DAY + 1439 * MINUTE, d + 1, 1439 * MINUTE);
  }

  lemma {:induction false} AskedIsDenoted(start: Stamp, end: Option<Stamp>, s: Instant, e: Instant)
    ensures Asked(start, end, s, e) <==> Denotes(start, s) && EndsAt(s, end, e)
  {
    if end.None? {
      DefaultEndIs(s, e);
    }
  }

  /** A request is accepted exactly when both instants exist and the shift lasts more than zero and at most 24 hours. */
  lemma {:induction false} AcceptedIff(start: Stamp, end: Option<Stamp>)
    ensures ScheduleColumns(start, end).Success? <==>
            exists s: Instant, e: Instant :: Denotes(start, s) && EndsAt(s, end, e) && 0 < e - s <= 86_400_000_000
  {
    if ScheduleColumns(start, end).Success? {
      var s := UtcNaive(start).value;
      var e := EndOf(s, end).value;
      AskedIsDenoted(start, end, s, e);
    }
    forall s: Instant, e: Instant | Denotes(start, s) && EndsAt(s, end, e) && 0 < e - s <= 86_400_000_000
      ensures ScheduleColumns(start, end).Success?
    {
      AskedIsDenoted(start, end, s, e);
    }
  }

  /** With both instants there, only the duration can be wrong. */
  lemma {:induction false} BadDurationIff(start: Stamp, end: Option<Stamp>)
    ensures ScheduleColumns(start, end) == Failure(BadDuration) <==>
            exists s: Instant, e: Instant :: Denotes(start, s) && EndsAt(s, end, e) && !(0 < e - s <= 86_400_000_000)
  {
    if UtcNaive(start).Success? && EndOf(UtcNaive(start).value, end).Success? {
      AskedIsDenoted(start, end, UtcNaive(start).value, EndOf(UtcNaive(start).value, end).value);
    }
    forall s: Instant, e: Instant | Denotes(start, s) && EndsAt(s, end, e) && !(0 < e - s <= 86_400_000_000)
      ensures ScheduleColumns(start, end) == Failure(BadDuration)
    {
      AskedIsDenoted(start, end, s, e);
    }
  }

  /** What is stored for an accepted schedule: the start, and both times of day. */
  lemma {:induction false} ColumnsMeaning(start: Stamp, end: Option<Stamp>)
    requires ScheduleColumns(start, end).Success?
    ensures var c := ScheduleColumns(start, end).value;
            && Denotes(start, c.shiftDate) && c.startTime == c.shiftDate % 86_400_000_000
            && exists e: Instant :: EndsAt(c.shiftDate, end, e) && c.endTime == e % 86_400_000_000
                                    && 0 < e - c.shiftDate <= 86_400_000_000
  {
    var s := UtcNaive(start).value;
    var e := EndOf(s, end).value;
    AskedIsDenoted(start, end, s, e);
    assert EndsAt(s, end, e);
  }

  lemma {:induction false} Decoded(s: Instant, e: Instant, d: int, r: TimeOfDay, d': int, r': TimeOfDay)
    requires s / DAY == d && s == d * DAY + r && e == d' * DAY + r'
    requires (d' == d && r < r') || (d' == d + 1 && r' <= r)
    ensures PlannedDatetimes(Columns(s, r, r')) == Success((s, e))
  {
  }

  /** Decoding what was stored gives back both instants, across midnight and at exactly 24 hours. */
  lemma {:induction false} StoredThenPlanned(start: Stamp, end: Option<Stamp>, s: Instant, e: Instant)
    requires Asked(start, end, s, e)
    requires 0 < e - s <= DAY
    ensures ScheduleColumns(start, end).Success?
    ensures PlannedDatetimes(ScheduleColumns(start, end).value) == Success((s, e))
  {
    Whole(s);
    Whole(e);
    WithinADay(s, e, s / DAY, s % DAY, e / DAY, e % DAY);
    Decoded(s, e, s / DAY, s % DAY, e / DAY, e % DAY);
  }

  /** Encoding what was decoded gives back the same columns, so no two accepted schedules share a row. */
  lemma {:induction false} PlannedThenStored(c: Columns)
    requires c.startTime == c.shiftDate % DAY
    requires PlannedDatetimes(c).Success?
    ensures var (s, e) := PlannedDatetimes(c).value;
            0 < e - s <= DAY && ScheduleColumns(Naive(s), Some(Naive(e))) == Success(c)
  {
    var (s, e) := PlannedDatetimes(c).value;
    var day := c.shiftDate / DAY;
    Whole(c.shiftDate);
    Split(day * DAY + c.endTime, day, c.endTime);
    Split((day + 1) * DAY + c.endTime, day + 1, c.endTime);
  }

  /** Without an end the shift always lasts more than zero and at most 24 hours;
      only the last minute of the last representable day has no default end. */
  lemma {:induction false} DefaultEndAccepted(start: Stamp)
    requires UtcNaive(start).Success?
    ensures var s := UtcNaive(start).value;
            ScheduleColumns(start, None).Success? <==> s < LIMIT - MINUTE
    ensures var s := UtcNaive(start).value;
            s < LIMIT - MINUTE ==> DefaultEnd(s).Success? && 0 < DefaultEnd(s).value - s <= DAY
    ensures UtcNaive(start).value >= LIMIT - MINUTE ==> ScheduleColumns(start, None) == Failure(OutOfRange)
  {
  }
}
