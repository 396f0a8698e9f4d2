/** The slice of chrono and chrono-tz the pipeline relies on. Calendar values
    and offset arithmetic are concrete; the time-zone database is an oracle. */
module Chrono {
  import opened Wrappers

  // ----- Calendar dates --------------------------------------------------------

  /** The proleptic Gregorian leap-year rule. */
  predicate IsLeapYear(year: int) {
    year % 4 == 0 && (year % 100 != 0 || year % 400 == 0)
  }

  function DaysInMonth(year: int, month: int): (n: int)
    requires 1 <= month <= 12
    ensures 28 <= n <= 31
    ensures n == 29 <==> (month == 2 && IsLeapYear(year))
  {
    if month == 2 then (if IsLeapYear(year) then 29 else 28)
    else if month == 4 || month == 6 || month == 9 || month == 11 then 30
    else 31
  }

  datatype Ymd = Ymd(year: int, month: int, day: int)

  /** `chrono::NaiveDate`: a day that exists in the calendar. */
  type NaiveDate = d: Ymd | 1 <= d.month <= 12 && 1 <= d.day <= DaysInMonth(d.year, d.month)
    witness Ymd(1970, 1, 1)

  /** The calendar order on dates. */
  predicate Before(a: Ymd, b: Ymd) {
    a.year < b.year || (a.year == b.year && (a.month < b.month || (a.month == b.month && a.day < b.day)))
  }

  function NextDay(d: NaiveDate): (r: NaiveDate)
    ensures Before(d, r)
  {
    if d.day < DaysInMonth(d.year, d.month) then Ymd(d.year, d.month, d.day + 1)
    else if d.month < 12 then Ymd(d.year, d.month + 1, 1)
    else Ymd(d.year + 1, 1, 1)
  }

  function PrevDay(d: NaiveDate): (r: NaiveDate)
    ensures Before(r, d)
  {
    if d.day > 1 then Ymd(d.year, d.month, d.day - 1)
    else if d.month > 1 then Ymd(d.year, d.month - 1, DaysInMonth(d.year, d.month - 1))
    else Ymd(d.year - 1, 12, 31)
  }

  /** NextDay and PrevDay undo each other. */
  lemma NextPrevInverse(d: NaiveDate)
    ensures PrevDay(NextDay(d)) == d && NextDay(PrevDay(d)) == d
  {
  }

  // ----- Times of day ----------------------------------------------------------

  datatype Hms = Hms(hour: int, minute: int, second: int)

  /** `chrono::NaiveTime` at whole-second resolution. */
  type NaiveTime = t: Hms | 0 <= t.hour < 24 && 0 <= t.minute < 60 && 0 <= t.second < 60
    witness Hms(0, 0, 0)

  const SECONDS_PER_DAY := 86400

  function SecondOfDay(t: NaiveTime): (s: int)
    ensures 0 <= s < SECONDS_PER_DAY
  {
    t.hour * 3600 + t.minute * 60 + t.second
  }

  function TimeOfSecond(s: int): (t: NaiveTime)
    requires 0 <= s < SECONDS_PER_DAY
    ensures SecondOfDay(t) == s
  {
    Hms(s / 3600, s % 3600 / 60, s % 60)
  }

  lemma TimeOfSecondOfDay(t: NaiveTime)
    ensures TimeOfSecond(SecondOfDay(t)) == t
  {
    var s := SecondOfDay(t);
    assert s / 3600 == t.hour;
    assert s % 3600 == t.minute * 60 + t.second;
  }

  // ----- Date-times and offsets ------------------------------------------------

  /** `chrono::NaiveDateTime`: a wall-clock reading with no zone attached. */
  datatype NaiveDateTime = NaiveDateTime(date: NaiveDate, time: NaiveTime)

  /** `NaiveDate::and_hms_opt`: `None` unless the time of day exists. */
  function AndHmsOpt(d: NaiveDate, hour: int, minute: int, second: int): (r: Option<NaiveDateTime>)
    ensures r.Some? <==> (0 <= hour < 24 && 0 <= minute < 60 && 0 <= second < 60)
    ensures r.Some? ==> r.value.date == d && r.value.time == Hms(hour, minute, second)
  {
    if 0 <= hour < 24 && 0 <= minute < 60 && 0 <= second < 60
    then Some(NaiveDateTime(d, Hms(hour, minute, second)))
    else None
  }

  /** A `FixedOffset`: seconds east of UTC, strictly less than a day either way. */
  type Offset = k: int | -SECONDS_PER_DAY < k < SECONDS_PER_DAY

  /** The wall-clock reading `k` seconds after `dt` (`k` may be negative). */
  function AddOffset(dt: NaiveDateTime, k: Offset): (r: NaiveDateTime)
    ensures SecondOfDay(r.time) == (SecondOfDay(dt.time) + k) % SECONDS_PER_DAY
    ensures SecondOfDay(dt.time) + k < 0 ==> r.date == PrevDay(dt.date)
    ensures 0 <= SecondOfDay(dt.time) + k < SECONDS_PER_DAY ==> r.date == dt.date
    ensures SECONDS_PER_DAY <= SecondOfDay(dt.time) + k ==> r.date == NextDay(dt.date)
  {
    var s := SecondOfDay(dt.time) + k;
    if s < 0 then
      assert s % SECONDS_PER_DAY == s + SECONDS_PER_DAY;
      NaiveDateTime(PrevDay(dt.date), TimeOfSecond(s + SECONDS_PER_DAY))
    else if s >= SECONDS_PER_DAY then
      assert s % SECONDS_PER_DAY == s - SECONDS_PER_DAY;
      NaiveDateTime(NextDay(dt.date), TimeOfSecond(s - SECONDS_PER_DAY))
    else
      assert s % SECONDS_PER_DAY == s;
      NaiveDateTime(dt.date, TimeOfSecond(s))
  }

  /** Shifting by `k` and back by `-k` is the identity: a local reading and its
      offset determine the instant, and the instant and the offset the reading. */
  lemma {:induction false} AddOffsetInverse(dt: NaiveDateTime, k: Offset)
    ensures AddOffset(AddOffset(dt, k), -k) == dt
  {
    var s := SecondOfDay(dt.time);
    var r := AddOffset(dt, k);
    var back := AddOffset(r, -k);
    NextPrevInverse(dt.date);
    TimeOfSecondOfDay(dt.time);
    if s + k < 0 {
      assert SecondOfDay(r.time) == s + k + SECONDS_PER_DAY;
    } else if s + k >= SECONDS_PER_DAY {
      assert SecondOfDay(r.time) == s + k - SECONDS_PER_DAY;
    } else {
      assert SecondOfDay(r.time) == s + k;
    }
    assert SecondOfDay(back.time) == s;
    assert back.time == TimeOfSecond(s);
  }

  /** An offset of zero leaves the reading unchanged (UTC's readings are its instants). */
  lemma AddZeroIdentity(dt: NaiveDateTime)
    ensures AddOffset(dt, 0) == dt
  {
    TimeOfSecondOfDay(dt.time);
  }

  // ----- Zones and zoned date-times --------------------------------------------

  /** A `chrono_tz::Tz`, known by its IANA name. */
  datatype Tz = Tz(name: string)

  /** The reading of the instant `utc` on a clock `offset` seconds east of UTC:
      the time of day moves by the offset and the date by at most a day;
      `LocalReadingInstant` shows that the reading fixes the instant. */
  function LocalReading(utc: NaiveDateTime, offset: Offset): (r: NaiveDateTime)
    ensures SecondOfDay(r.time) == (SecondOfDay(utc.time) + offset) % SECONDS_PER_DAY
    ensures r.date == utc.date || r.date == PrevDay(utc.date) || r.date == NextDay(utc.date)
  {
    AddOffset(utc, offset)
  }

  /** A local reading and its offset give back the instant: `naive_local()`
      loses nothing when the offset is known, for `DateTime<FixedOffset>` and
      `DateTime<Tz>` alike. As shifting back is injective, this pins the
      reading, date included. */
  lemma LocalReadingInstant(utc: NaiveDateTime, offset: Offset)
    ensures AddOffset(LocalReading(utc, offset), -offset) == utc
  {
    AddOffsetInverse(utc, offset);
  }

  /** `DateTime<FixedOffset>`: an instant (held as its UTC reading) and an offset. */
  datatype FixedDateTime = FixedDateTime(utc: NaiveDateTime, offset: Offset) {
    /** `naive_local()`: the instant read at the value's own offset. */
    function NaiveLocal(): NaiveDateTime {
      LocalReading(utc, offset)
    }
  }

  /** `DateTime<Tz>`: an instant, the zone, and the offset in force at that instant. */
  datatype ZonedDateTime = ZonedDateTime(utc: NaiveDateTime, offset: Offset, tz: Tz) {
    /** `naive_local()`: the instant read at the offset in force in the zone. */
    function NaiveLocal(): NaiveDateTime {
      LocalReading(utc, offset)
    }

    /** `date_naive()`: the local calendar date; together with the local time
        of day it gives back the local reading. */
    function DateNaive(): (d: NaiveDate)
      ensures NaiveDateTime(d, NaiveLocal().time) == NaiveLocal()
    {
      NaiveLocal().date
    }
  }

  /** `chrono::LocalResult`: a wall-clock reading maps to no instant (a gap), one,
      or two (an overlap). */
  datatype LocalResult<T> = Nonexistent | Single(value: T) | Ambiguous(earliest: T, latest: T) {
    /** `LocalResult::single`. */
    function AsSingle(): (r: Option<T>)
      ensures r.Some? <==> Single?
      ensures r.Some? ==> r.value == value
    {
      match this
      case Single(v) => Some(v)
      case _ => None
    }
  }

  /** The tz database, as chrono-tz consults it: the offset in force at a UTC
      instant, and the offsets a local reading may have. */
  datatype TzDb = TzDb(
    offsetFromUtc: (Tz, NaiveDateTime) -> Offset,
    offsetFromLocal: (Tz, NaiveDateTime) -> LocalResult<Offset>)

  /** `TimeZone::from_utc_datetime`: the instant read in `tz`. */
  function FromUtcDatetime(db: TzDb, tz: Tz, utc: NaiveDateTime): (r: ZonedDateTime)
    ensures r.utc == utc && r.tz == tz && r.offset == db.offsetFromUtc(tz, utc)
    ensures AddOffset(r.NaiveLocal(), -r.offset) == utc
  {
    LocalReadingInstant(utc, db.offsetFromUtc(tz, utc));
    ZonedDateTime(utc, db.offsetFromUtc(tz, utc), tz)
  }

  /** The instant whose reading in `tz` at offset `o` is `local`. */
  function AtLocal(tz: Tz, local: NaiveDateTime, o: Offset): (r: ZonedDateTime)
    ensures r.NaiveLocal() == local && r.offset == o && r.tz == tz
  {
    AddOffsetInverse(local, -o);
    ZonedDateTime(AddOffset(local, -o), o, tz)
  }

  /** `TimeZone::from_local_datetime`: every candidate instant reads as `local`. */
  function FromLocalDatetime(db: TzDb, tz: Tz, local: NaiveDateTime): (r: LocalResult<ZonedDateTime>)
    ensures r.Nonexistent? <==> db.offsetFromLocal(tz, local).Nonexistent?
    ensures r.Single? <==> db.offsetFromLocal(tz, local).Single?
    ensures r.Single? ==>
              && r.value.NaiveLocal() == local && r.value.tz == tz
              && r.value.offset == db.offsetFromLocal(tz, local).value
    ensures r.Ambiguous? ==> r.earliest.NaiveLocal() == local && r.latest.NaiveLocal() == local
  {
    match db.offsetFromLocal(tz, local)
    case Nonexistent => Nonexistent
    case Single(o) => Single(AtLocal(tz, local, o))
    case Ambiguous(a, b) => Ambiguous(AtLocal(tz, local, a), AtLocal(tz, local, b))
  }

  /** `DateTime::with_timezone`: the same instant, re-expressed in `tz`. */
  function WithTimezone(dt: FixedDateTime, db: TzDb, tz: Tz): (r: ZonedDateTime)
    ensures r.utc == dt.utc && r.tz == tz && r.offset == db.offsetFromUtc(tz, dt.utc)
  {
    FromUtcDatetime(db, tz, dt.utc)
  }

  /** Re-expressing keeps the instant: both local readings, shifted back by
      their offsets, are the same UTC reading. */
  lemma WithTimezoneKeepsInstant(dt: FixedDateTime, db: TzDb, tz: Tz)
    ensures var r := WithTimezone(dt, db, tz);
      AddOffset(r.NaiveLocal(), -r.offset) == AddOffset(dt.NaiveLocal(), -dt.offset)
  {
    var r := WithTimezone(dt, db, tz);
    assert AddOffset(r.NaiveLocal(), -r.offset) == dt.utc;
    LocalReadingInstant(dt.utc, dt.offset);
  }
}
