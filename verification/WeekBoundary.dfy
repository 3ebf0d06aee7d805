/**
 * week-boundary.util.ts and the archiving job it feeds. Instants are milliseconds since 1970-01-01
 * UTC; a time zone is a function from an instant to its offset in milliseconds, and the formatter's
 * fields are the calendar fields of the instant plus that offset.
 */
module WeekBoundary {
  import opened Outcomes
  import opened Calendar


  type Zone = int -> int

  const UTC_ZONE: Zone := (t: int) => 0

  /** Offsets are whole seconds and shorter than a day. */
  ghost predicate IsZone(zone: Zone) {
    forall t :: zone(t) % 1000 == 0 && -86400000 < zone(t) < 86400000
  }

  function DayPart(t: int): int { t / 86400000 }

  function TimePart(t: int): int { t % 86400000 }

  lemma Parts(t: int)
    ensures t == DayPart(t) * 86400000 + TimePart(t) && 0 <= TimePart(t) < 86400000
  {
  }

  lemma PartsAreUnique(t: int, day: int, time: int)
    requires t == day * 86400000 + time && 0 <= time < 86400000
    ensures DayPart(t) == day && TimePart(t) == time
  {
  }

  lemma DaysAdvance(t: int, u: int)
    requires t <= u
    ensures DayPart(t) <= DayPart(u)
  {
  }

  lemma AddingSeconds(t: int, k: int)
    ensures (t + 1000 * k) % 1000 == t % 1000
  {
    var p, q := t / 1000, (t + 1000 * k) / 1000;
    assert 1000 * (q - p - k) == t % 1000 - (t + 1000 * k) % 1000;
  }

  lemma SecondsAddUp(s: int, t: int)
    requires s % 1000 == 0 && t % 1000 == 0
    ensures (s + t) % 1000 == 0 && (s - t) % 1000 == 0
  {
    AddingSeconds(s, t / 1000);
    AddingSeconds(s, -(t / 1000));
  }

  lemma WholeSeconds(t: int)
    requires t % 1000 == 0
    ensures TimePart(t) % 1000 == 0
  {
    AddingSeconds(TimePart(t), 86400 * DayPart(t));
    Parts(t);
  }

  lemma ClockFields(time: int)
    requires 0 <= time < 86400000
    ensures time == time / 3600000 * 3600000 + time / 60000 % 60 * 60000 + time / 1000 % 60 * 1000 + time % 1000
  {
    assert time / 60000 / 60 == time / 3600000;
    assert time / 1000 / 60 == time / 60000;
  }

  /** Date.UTC, with its reading of the years 0 to 99 as 1900 to 1999. */
  function UtcInstant(year: int, month: int, day: int, hour: int, minute: int, second: int): int
    requires 1 <= month <= 12
  {
    var y := if 0 <= year <= 99 then 1900 + year else year;
    MakeDay(y, month, day) * 86400000 + hour * 3600000 + minute * 60000 + second * 1000
  }

  /** The date and weekday fields of an instant in a zone. */
  function DateIn(t: int, zone: Zone): Date { DateOf(DayPart(t + zone(t))) }

  function WeekdayIn(t: int, zone: Zone): string { WeekdayName(DayPart(t + zone(t))) }

  /** The wall clock shows midnight at the start of `date`, to the second. */
  predicate ReadsMidnight(t: int, zone: Zone, date: Date) {
    DateIn(t, zone) == date && TimePart(t + zone(t)) / 1000 == 0
  }

  // ----- zonedMidnightToUtc -----

  /** The hour as the formatter shows it; some show midnight as 24. */
  function HourField(hour: int, shows24: bool): int {
    if hour == 0 && shows24 then 24 else hour
  }

  function HourValue(field: int): int { if field == 24 then 0 else field }

  /** The wall-clock fields of a local time, read as if they were UTC. */
  function FieldsAsUtc(local: int, shows24: bool): int {
    var date, time := DateOf(DayPart(local)), TimePart(local);
    UtcInstant(date.year, date.month, date.day, HourValue(HourField(time / 3600000, shows24)),
               time / 60000 % 60, time / 1000 % 60)
  }

  function ZonedMidnightToUtc(date: Date, zone: Zone, shows24: bool): int
    requires 1 <= date.month <= 12
  {
    var guess := UtcInstant(date.year, date.month, date.day, 0, 0, 0);
    var asIfUtc := FieldsAsUtc(guess + zone(guess), shows24);
    guess + (guess - asIfUtc)
  }

  lemma {:induction false} FieldsRebuildInstant(local: int, shows24: bool)
    requires DateOf(DayPart(local)).year >= 100 && local % 1000 == 0
    ensures FieldsAsUtc(local, shows24) == local
  {
    var time := TimePart(local);
    DayToDateToDay(DayPart(local));
    Parts(local);
    ClockFields(time);
    WholeSeconds(local);
  }

  /** UTC midnight of day `d`. */
  function UtcMidnight(d: int): int { d * 86400000 }

  lemma UtcMidnightIsWhole(d: int)
    ensures UtcMidnight(d) % 1000 == 0 && DayPart(UtcMidnight(d)) == d
  {
    AddingSeconds(0, 86400 * d);
  }

  lemma UtcInstantOfDate(d: int)
    requires DateOf(d).year >= 100
    ensures UtcInstant(DateOf(d).year, DateOf(d).month, DateOf(d).day, 0, 0, 0) == UtcMidnight(d)
  {
    DayToDateToDay(d);
  }

  /** Where date arithmetic reaches: day `d`, and the local day of its UTC midnight in the zone, lie in
      year 100 or later, where Date.UTC takes years as they are. */
  predicate LateEnough(d: int, zone: Zone) {
    DateOf(d).year >= 100 && DateIn(UtcMidnight(d), zone).year >= 100
  }

  lemma {:induction false} ResultIsGuessMinusOffset(d: int, zone: Zone, shows24: bool)
    requires zone(UtcMidnight(d)) % 1000 == 0 && LateEnough(d, zone)
    ensures ZonedMidnightToUtc(DateOf(d), zone, shows24) == UtcMidnight(d) - zone(UtcMidnight(d))
  {
    hide DateOf, UtcInstant, FieldsAsUtc, UtcMidnight, DayPart;
    var guess := UtcMidnight(d);
    UtcInstantOfDate(d);
    UtcMidnightIsWhole(d);
    SecondsAddUp(guess, zone(guess));
    FieldsRebuildInstant(guess + zone(guess), shows24);
  }

  /** Reading midnight means being, with the offset, exactly at the day's midnight. */
  lemma {:induction false} MidnightReading(d: int, local: int)
    requires local % 1000 == 0
    ensures DateOf(DayPart(local)) == DateOf(d) && TimePart(local) / 1000 == 0 <==> local == UtcMidnight(d)
  {
    Parts(local);
    WholeSeconds(local);
    if local == UtcMidnight(d) {
      PartsAreUnique(local, d, 0);
    } else if DateOf(DayPart(local)) == DateOf(d) {
      DateOfInjective(DayPart(local), d);
      assert TimePart(local) / 1000 != 0;
    }
  }

  /** The zone has one offset at the guess and at the guess corrected by it. */
  predicate SameOffsetAfter(guess: int, zone: Zone) { zone(guess) == zone(guess - zone(guess)) }

  lemma {:induction false} DayMidnightIffOffsetsAgree(d: int, zone: Zone, shows24: bool)
    requires IsZone(zone) && LateEnough(d, zone)
    ensures ReadsMidnight(ZonedMidnightToUtc(DateOf(d), zone, shows24), zone, DateOf(d)) <==>
              SameOffsetAfter(UtcMidnight(d), zone)
  {
    hide DateOf, ZonedMidnightToUtc;
    var guess := UtcMidnight(d);
    var r := guess - zone(guess);
    ResultIsGuessMinusOffset(d, zone, shows24);
    UtcMidnightIsWhole(d);
    SecondsAddUp(guess, zone(guess));
    SecondsAddUp(r, zone(r));
    MidnightReading(d, r + zone(r));
  }

  /** One correction is exact precisely when the zone has the same offset at the guess and where that
      offset leads, however midnight is rendered. */
  lemma {:induction false} CorrectIffOffsetsAgree(date: Date, zone: Zone, shows24: bool)
    requires IsDate(date) && IsZone(zone) && LateEnough(MakeDay(date.year, date.month, date.day), zone)
    ensures ReadsMidnight(ZonedMidnightToUtc(date, zone, shows24), zone, date) <==>
            SameOffsetAfter(UtcInstant(date.year, date.month, date.day, 0, 0, 0), zone)
  {
    hide DateOf, ZonedMidnightToUtc, UtcInstant, MakeDay;
    var d := MakeDay(date.year, date.month, date.day);
    DateToDayToDate(date);
    UtcInstantOfDate(d);
    DayMidnightIffOffsetsAgree(d, zone, shows24);
  }

  /** The condition can fail where there is a right answer: in a zone that moves from +10 h to +11 h at
      03:00 local time of 1970-01-01, that day's midnight is the instant -36000000, and the code returns one
      that is an hour earlier. */
  lemma {:induction false} TransitionBreaksMidnight(zone: Zone, shows24: bool)
    requires forall t :: zone(t) == if t < -25200000 then 36000000 else 39600000
    ensures ReadsMidnight(-36000000, zone, DateOf(0))
    ensures !ReadsMidnight(ZonedMidnightToUtc(DateOf(0), zone, shows24), zone, DateOf(0))
    ensures ZonedMidnightToUtc(DateOf(0), zone, shows24) == -36000000 - 3600000
  {
    hide DateOf, ZonedMidnightToUtc;
    YearsApart(100, 1970);
    DateYear(0, 100);
    PartsAreUnique(39600000, 0, 39600000);
    MidnightReading(0, 0);
    ResultIsGuessMinusOffset(0, zone, shows24);
    DayMidnightIffOffsetsAgree(0, zone, shows24);
  }

  // ----- getCurrentWeekStart -----

  function OffsetFromMonday(weekday: string): Option<int> {
    if weekday == "Mon" then Some(0)
    else if weekday == "Tue" then Some(1)
    else if weekday == "Wed" then Some(2)
    else if weekday == "Thu" then Some(3)
    else if weekday == "Fri" then Some(4)
    else if weekday == "Sat" then Some(5)
    else if weekday == "Sun" then Some(6)
    else None
  }

  function CurrentWeekStart(now: int, zone: Zone, shows24: bool): Result<int, string> {
    var date, since := DateIn(now, zone), OffsetFromMonday(WeekdayIn(now, zone));
    if since.None? then Err(WeekdayIn(now, zone))
    else
      var monday := DateIn(UtcInstant(date.year, date.month, date.day - since.value, 0, 0, 0), UTC_ZONE);
      Ok(ZonedMidnightToUtc(monday, zone, shows24))
  }

  /** The day of the Monday on or before day `n`. */
  function MondayOf(n: int): int { n - (n + 3) % 7 }

  lemma WeekdayOffsets(n: int)
    ensures OffsetFromMonday(WeekdayName(n)) == Some((n + 3) % 7)
    ensures WeekdayName(MondayOf(n)) == "Mon"
    ensures MondayOf(n) <= n < MondayOf(n) + 7
  {
    assert (n + 3) % 7 == (WeekDay(n) + 6) % 7;
    assert "Sun"[0] == 'S' && "Sun"[1] == 'u' && "Sat"[1] == 'a' && "Thu"[1] == 'h' && "Tue"[1] == 'u';
  }

  /** The Monday of now's local week. */
  function LocalMonday(now: int, zone: Zone): int { MondayOf(DayPart(now + zone(now))) }

  /** That Monday lies in year 100 or later. */
  predicate InRange(now: int, zone: Zone) { DateOf(LocalMonday(now, zone)).year >= 100 }

  /** Year 100 begins with a Friday, so the day before its first Monday lies in it too. */
  lemma MondayOfYear100(n: int)
    requires DateOf(MondayOf(n)).year >= 100
    ensures MondayOf(n) > DayFromYear(100)
  {
    hide DateOf;
    DateYear(MondayOf(n), 100);
    DayFromYearFormula(100);
    assert DayFromYear(100) == -683003;
    assert (MondayOf(n) + 3) % 7 == 0;
  }

  lemma DaysBack(n: int, k: nat)
    requires DateOf(n).year >= 100
    ensures UtcInstant(DateOf(n).year, DateOf(n).month, DateOf(n).day - k, 0, 0, 0) == UtcMidnight(n - k)
  {
    DayToDateToDay(n);
  }

  lemma InRangeYear(now: int, zone: Zone)
    requires InRange(now, zone)
    ensures DateIn(now, zone).year >= 100
  {
    hide DateOf;
    WeekdayOffsets(DayPart(now + zone(now)));
    DateYear(LocalMonday(now, zone), 100);
    DateYear(DayPart(now + zone(now)), 100);
  }

  /** The calendar subtraction lands on the local Monday, whatever month or year it falls in. */
  lemma {:induction false} WeekStartIsMondayMidnight(now: int, zone: Zone, shows24: bool)
    requires DateIn(now, zone).year >= 100
    ensures CurrentWeekStart(now, zone, shows24) ==
              Ok(ZonedMidnightToUtc(DateOf(LocalMonday(now, zone)), zone, shows24))
  {
    hide DateOf, UtcInstant, ZonedMidnightToUtc, WeekdayName, OffsetFromMonday;
    var n := DayPart(now + zone(now));
    WeekdayOffsets(n);
    DaysBack(n, (n + 3) % 7);
    UtcMidnightIsWhole(MondayOf(n));
  }

  lemma MondayIsLateEnough(m: int, zone: Zone)
    requires m > DayFromYear(100) && -86400000 < zone(UtcMidnight(m)) < 86400000
    ensures LateEnough(m, zone)
  {
    hide DateOf;
    var local := UtcMidnight(m) + zone(UtcMidnight(m));
    Parts(local);
    assert DayPart(local) >= m - 1;
    DateYear(m, 100);
    DateYear(DayPart(local), 100);
  }

  /** In an arbitrary zone: the result reads as 00:00:00 on the Monday of now's local week if and only if
      the zone has the same offset at midnight UTC of that Monday as at the instant that offset leads to. */
  lemma {:induction false} WeekStartIffOffsetsAgree(now: int, zone: Zone, shows24: bool)
    requires IsZone(zone) && InRange(now, zone)
    ensures var start, m := CurrentWeekStart(now, zone, shows24), LocalMonday(now, zone);
            && start.Ok?
            && (ReadsMidnight(start.value, zone, DateOf(m)) <==> SameOffsetAfter(UtcMidnight(m), zone))
  {
    hide DateOf, ZonedMidnightToUtc, CurrentWeekStart, MondayOf;
    var m := LocalMonday(now, zone);
    InRangeYear(now, zone);
    MondayOfYear100(DayPart(now + zone(now)));
    WeekStartIsMondayMidnight(now, zone, shows24);
    MondayIsLateEnough(m, zone);
    DayMidnightIffOffsetsAgree(m, zone, shows24);
  }

  ghost predicate IsFixedZone(zone: Zone, offset: int) {
    && offset % 1000 == 0 && -86400000 < offset < 86400000
    && forall t :: zone(t) == offset
  }

  lemma FixedZoneValue(now: int, zone: Zone, offset: int, shows24: bool)
    requires IsFixedZone(zone, offset) && InRange(now, zone)
    ensures CurrentWeekStart(now, zone, shows24) == Ok(UtcMidnight(MondayOf(DayPart(now + offset))) - offset)
  {
    hide DateOf, ZonedMidnightToUtc, CurrentWeekStart;
    var m := LocalMonday(now, zone);
    InRangeYear(now, zone);
    MondayOfYear100(DayPart(now + zone(now)));
    WeekStartIsMondayMidnight(now, zone, shows24);
    MondayIsLateEnough(m, zone);
    ResultIsGuessMinusOffset(m, zone, shows24);
  }

  lemma WithinTheWeek(now: int, offset: int)
    ensures var m := MondayOf(DayPart(now + offset));
            UtcMidnight(m) - offset <= now < UtcMidnight(m + 7) - offset
  {
    Parts(now + offset);
    WeekdayOffsets(DayPart(now + offset));
  }

  /** In a zone with a fixed offset: Monday 00:00:00, at most `now`, and less than a week before it. */
  lemma {:induction false} FixedZoneWeekStart(now: int, zone: Zone, offset: int, shows24: bool)
    requires IsFixedZone(zone, offset) && InRange(now, zone)
    ensures var start := CurrentWeekStart(now, zone, shows24);
            && start.Ok?
            && WeekdayIn(start.value, zone) == "Mon" && TimePart(start.value + offset) == 0
            && start.value <= now < start.value + 7 * 86400000
  {
    hide DateOf, CurrentWeekStart, WeekdayName;
    FixedZoneValue(now, zone, offset, shows24);
    WithinTheWeek(now, offset);
    var m := MondayOf(DayPart(now + offset));
    WeekdayOffsets(DayPart(now + offset));
    PartsAreUnique(UtcMidnight(m), m, 0);
  }

  /** And it never moves back. */
  lemma {:induction false} FixedZoneMonotone(now: int, later: int, zone: Zone, offset: int, shows24: bool)
    requires IsFixedZone(zone, offset) && now <= later && InRange(now, zone)
    ensures InRange(later, zone)
    ensures var first, second := CurrentWeekStart(now, zone, shows24), CurrentWeekStart(later, zone, shows24);
            first.Ok? && second.Ok? && first.value <= second.value
  {
    hide DateOf, CurrentWeekStart;
    DaysAdvance(now + offset, later + offset);
    MondaysMonotone(DayPart(now + offset), DayPart(later + offset));
    DateYear(LocalMonday(now, zone), 100);
    DateYear(LocalMonday(later, zone), 100);
    FixedZoneValue(now, zone, offset, shows24);
    FixedZoneValue(later, zone, offset, shows24);
  }

  lemma LastMondayOfYear99(n: int)
    requires DayFromYear(100) <= n <= DayFromYear(100) + 2
    ensures DateOf(MondayOf(n)) == Date(99, 12, 28) && DateOf(n).year >= 100
  {
    hide DateOf, MonthFrom, YearOf;
    DayFromYearFormula(100);
    assert DayFromYear(100) == -683003;
    NextYear(99);
    assert DaysBefore(12, false) == 334 by {
      WholeYear(false);
      assert DaysBefore(13, false) == DaysBefore(12, false) + 31;
    }
    assert MakeDay(99, 12, 28) == MondayOf(n);
    DateToDayToDate(Date(99, 12, 28));
    DateYear(n, 100);
  }

  lemma MidnightIn1999(zone: Zone, shows24: bool)
    requires IsFixedZone(zone, 0)
    ensures ZonedMidnightToUtc(Date(99, 12, 28), zone, shows24) == UtcMidnight(MakeDay(1999, 12, 28))
    ensures MakeDay(1999, 12, 28) > 0
  {
    hide DateOf, FieldsAsUtc, DayFromYear, DaysBefore;
    var d := MakeDay(1999, 12, 28);
    DateToDayToDate(Date(1999, 12, 28));
    UtcMidnightIsWhole(d);
    FieldsRebuildInstant(UtcMidnight(d), shows24);
    DayFromYearFormula(1999);
  }

  /** The range is exact in UTC for year 100: on the three days before its first Monday, whose week begins in
      year 99, Date.UTC reads that year as 1999 and the week start lies in the future. */
  lemma {:induction false} FirstDaysOfYear100(now: int, zone: Zone, shows24: bool)
    requires IsFixedZone(zone, 0) && DayFromYear(100) <= DayPart(now) <= DayFromYear(100) + 2
    ensures !InRange(now, zone)
    ensures CurrentWeekStart(now, zone, shows24) == Ok(UtcMidnight(MakeDay(1999, 12, 28)))
    ensures now < UtcMidnight(MakeDay(1999, 12, 28))
  {
    hide DateOf, CurrentWeekStart, ZonedMidnightToUtc, MakeDay, DayFromYear;
    LastMondayOfYear99(DayPart(now));
    WeekStartIsMondayMidnight(now, zone, shows24);
    MidnightIn1999(zone, shows24);
    DayFromYearFormula(100);
    Parts(now);
  }

  lemma MondaysMonotone(n: int, k: int)
    requires n <= k
    ensures MondayOf(n) <= MondayOf(k)
  {
    WeekdayOffsets(n);
    WeekdayOffsets(k);
    assert MondayOf(n) == (n + 3) / 7 * 7 - 3 && MondayOf(k) == (k + 3) / 7 * 7 - 3;
    assert (n + 3) / 7 <= (k + 3) / 7;
  }

  // ----- the archiving job -----

  datatype Status = Active | Archived

  datatype Routine = Routine(status: Status, createdAt: int)

  function Archive(rows: map<string, Routine>, weekStart: int): map<string, Routine> {
    map r | r in rows :: if rows[r].status.Active? && rows[r].createdAt < weekStart then rows[r].(status := Archived)
        else rows[r]
  }

  /** The rows updateMany's `where` selects. */
  function Due(rows: map<string, Routine>, weekStart: int): set<string> {
    set r | r in rows && rows[r].status.Active? && rows[r].createdAt < weekStart
  }

  /** Active rows from before the cutoff are archived and otherwise as they were; every other row is as it
      was. */
  ghost predicate ArchivedBefore(before: map<string, Routine>, after: map<string, Routine>, weekStart: int) {
    && after.Keys == before.Keys
    && forall r :: r in before ==>
         if before[r].status == Active && before[r].createdAt < weekStart
         then after[r].status == Archived && after[r].createdAt == before[r].createdAt
         else after[r] == before[r]
  }

  /** The rows that differ. */
  function Changed(before: map<string, Routine>, after: map<string, Routine>): set<string>
    requires after.Keys == before.Keys
  {
    set r | r in before && after[r] != before[r]
  }

  lemma {:induction false} ArchiveIsExact(rows: map<string, Routine>, weekStart: int)
    ensures ArchivedBefore(rows, Archive(rows, weekStart), weekStart)
    ensures Changed(rows, Archive(rows, weekStart)) == Due(rows, weekStart)
    ensures Due(Archive(rows, weekStart), weekStart) == {}
  {
    var after := Archive(rows, weekStart);
    assert forall r :: r in rows ==> (after[r] != rows[r] <==> r in Due(rows, weekStart));
  }

  class WeeklyRoutineCleanup {
    var rows: map<string, Routine>

    constructor (rows: map<string, Routine>)
      ensures this.rows == rows
    {
      this.rows := rows;
    }

    /** run, with the cutoff already resolved. */
    method Run(weekStart: int) returns (archivedCount: nat)
      modifies this
      ensures rows == Archive(old(rows), weekStart)
      ensures ArchivedBefore(old(rows), rows, weekStart)
      ensures archivedCount == |Changed(old(rows), rows)|
      ensures Due(rows, weekStart) == {}
    {
      archivedCount := |Due(rows, weekStart)|;
      ArchiveIsExact(rows, weekStart);
      rows := Archive(rows, weekStart);
    }
  }

  /** Running the job at an earlier and then at a later instant is running it at the later one only. */
  lemma {:induction false} CleanupAbsorbsEarlierRuns(rows: map<string, Routine>, now: int, later: int,
                                                     zone: Zone, offset: int, shows24: bool)
    requires IsFixedZone(zone, offset) && now <= later && InRange(now, zone)
    ensures var first, second := CurrentWeekStart(now, zone, shows24), CurrentWeekStart(later, zone, shows24);
            && first.Ok? && second.Ok?
            && Archive(Archive(rows, first.value), second.value) == Archive(rows, second.value)
            && ArchivedBefore(rows, Archive(Archive(rows, first.value), second.value), second.value)
  {
    FixedZoneMonotone(now, later, zone, offset, shows24);
    ArchiveTwice(rows, CurrentWeekStart(now, zone, shows24).value, CurrentWeekStart(later, zone, shows24).value);
    ArchiveIsExact(rows, CurrentWeekStart(later, zone, shows24).value);
  }

  lemma ArchiveTwice(rows: map<string, Routine>, a: int, b: int)
    requires a <= b
    ensures Archive(Archive(rows, a), b) == Archive(rows, b)
  {
  }
}
