/**
 How far the 365-day age rule of pkg and the wallet is from the Gregorian
 calendar.  Days are counted from 1 January 1970.
 */
module Gregorian {
  import opened Wrappers
  import opened ScalarField
  import opened Schema
  import opened Values
  import opened Circuit
  import opened Compiler

  const SECONDS_PER_DAY: int := 86_400

  predicate IsLeap(y: int) { y % 4 == 0 && (y % 100 != 0 || y % 400 == 0) }

  function YearLength(y: int): int { if IsLeap(y) then 366 else 365 }

  function MonthLength(y: int, m: int): int
    requires 1 <= m <= 12
  {
    if m == 2 then (if IsLeap(y) then 29 else 28)
    else if m == 4 || m == 6 || m == 9 || m == 11 then 30
    else 31
  }

  datatype Date = Date(year: int, month: int, day: int)

  predicate IsDate(b: Date) {
    1970 <= b.year && 1 <= b.month <= 12 && 1 <= b.day <= MonthLength(b.year, b.month)
  }

  /** Days before 1 January of a year. */
  function DaysBeforeYear(y: int): int
    requires 1970 <= y
    decreases y
  {
    if y == 1970 then 0 else DaysBeforeYear(y - 1) + YearLength(y - 1)
  }

  /** Days of the year before the first of a month. */
  function DaysBeforeMonth(y: int, m: int): int
    requires 1 <= m <= 12
    decreases m
  {
    if m == 1 then 0 else DaysBeforeMonth(y, m - 1) + MonthLength(y, m - 1)
  }

  function DayNumber(b: Date): int
    requires 1970 <= b.year && 1 <= b.month <= 12
  {
    DaysBeforeYear(b.year) + DaysBeforeMonth(b.year, b.month) + b.day - 1
  }

  /** The day of the n-th birthday; someone born on 29 February has a common-year birthday on 1 March. */
  function Birthday(b: Date, n: nat): int
    requires IsDate(b)
  {
    DayNumber(Date(b.year + n, b.month, b.day))
  }

  /** Whether the months up to the given one contain 29 February. */
  function LeapDayBefore(y: int, m: int): int { if m > 2 && IsLeap(y) then 1 else 0 }

  lemma {:induction false} DaysBeforeMonthShift(y: int, y': int, m: int)
    requires 1 <= m <= 12
    ensures DaysBeforeMonth(y', m) - LeapDayBefore(y', m) == DaysBeforeMonth(y, m) - LeapDayBefore(y, m)
    decreases m
  {
    hide IsLeap;
    if m > 1 { DaysBeforeMonthShift(y, y', m - 1); }
  }

  /** The year whose 29 February, if any, lies between the n-th birthday and the next. */
  function SpannedYear(b: Date, n: nat): int { if b.month <= 2 then b.year + n else b.year + n + 1 }

  /** From one birthday to the next it is 365 days, and one more when a leap day lies between. */
  lemma BirthdayStep(b: Date, n: nat)
    requires IsDate(b)
    ensures Birthday(b, n + 1) - Birthday(b, n) == YearLength(SpannedYear(b, n))
  {
    hide Birthday, IsDate, IsLeap, MonthLength, DaysBeforeYear, DaysBeforeMonth;
    BirthdayParts(b, n);
    BirthdayParts(b, n + 1);
    YearStep(b.year + n);
    DaysBeforeMonthShift(b.year + n, b.year + n + 1, b.month);
  }

  lemma BirthdayParts(b: Date, n: nat)
    requires IsDate(b)
    ensures 1970 <= b.year && 1 <= b.month <= 12
    ensures Birthday(b, n) == DaysBeforeYear(b.year + n) + DaysBeforeMonth(b.year + n, b.month) + b.day - 1
  {
    hide IsLeap, MonthLength, DaysBeforeYear, DaysBeforeMonth;
  }

  lemma YearStep(y: int)
    requires 1970 <= y
    ensures DaysBeforeYear(y + 1) == DaysBeforeYear(y) + YearLength(y)
  {
    hide YearLength, IsLeap;
  }

  /** How many leap days lie between birth and the n-th birthday. */
  function LeapDays(b: Date, n: nat): nat {
    if n == 0 then 0 else LeapDays(b, n - 1) + if IsLeap(SpannedYear(b, n - 1)) then 1 else 0
  }

  /** n birthdays span 365 n days and the leap days between. */
  lemma {:induction false} BirthdayIsExact(b: Date, n: nat)
    requires IsDate(b)
    ensures Birthday(b, n) - Birthday(b, 0) == 365 * n + LeapDays(b, n)
  {
    hide Birthday, IsDate, IsLeap, SpannedYear;
    if n > 0 {
      BirthdayIsExact(b, n - 1);
      BirthdayStep(b, n - 1);
    }
  }

  /** There are at most ceil(n / 4) of them. */
  lemma {:induction false} LeapDaysAreFew(b: Date, n: nat)
    ensures LeapDays(b, n) <= (n + 3) / 4
  {
    hide IsLeap;
    if n >= 4 {
      LeapDaysAreFew(b, n - 4);
      AtMostOneLeapInFour(SpannedYear(b, n - 4));
      assert LeapDays(b, n) - LeapDays(b, n - 2) <= 1 && LeapDays(b, n - 2) - LeapDays(b, n - 4) <= 1;
    } else if n > 0 {
      AtMostOneLeapInFour(SpannedYear(b, 0));
      assert LeapDays(b, 1) <= 1;
    }
  }

  lemma AtMostOneLeapInFour(y: int)
    ensures IsLeap(y) ==> !IsLeap(y + 1) && !IsLeap(y + 2) && !IsLeap(y + 3)
    ensures IsLeap(y + 1) ==> !IsLeap(y + 2) && !IsLeap(y + 3)
    ensures IsLeap(y + 2) ==> !IsLeap(y + 3)
  {
  }

  lemma {:induction false} NoLeapDays(b: Date, n: nat)
    ensures LeapDays(b, n) == 0 <==> forall k: nat | k < n :: !IsLeap(SpannedYear(b, k))
  {
    hide IsLeap, SpannedYear;
    if n > 0 { NoLeapDays(b, n - 1); }
  }

  /** The Unix time of birth at UTC midnight. */
  function BirthSeconds(b: Date): int
    requires IsDate(b)
  {
    SECONDS_PER_DAY * DayNumber(b)
  }

  lemma {:induction false} DaysBeforeYearNonNegative(y: int)
    requires 1970 <= y
    ensures DaysBeforeYear(y) >= 0
    decreases y
  {
    if y > 1970 { DaysBeforeYearNonNegative(y - 1); }
  }

  lemma {:induction false} DaysBeforeMonthNonNegative(y: int, m: int)
    requires 1 <= m <= 12
    ensures DaysBeforeMonth(y, m) >= 0
    decreases m
  {
    hide IsLeap;
    if m > 1 { DaysBeforeMonthNonNegative(y, m - 1); }
  }

  lemma BirthIsNonNegative(b: Date)
    requires IsDate(b)
    ensures BirthSeconds(b) == SECONDS_PER_DAY * Birthday(b, 0) && Birthday(b, 0) >= 0
  {
    DaysBeforeYearNonNegative(b.year);
    DaysBeforeMonthNonNegative(b.year, b.month);
    hide IsLeap, DaysBeforeYear, DaysBeforeMonth, MonthLength;
  }

  // ----- the compiled constraint -----

  /** An age constraint over one field that asks for a number of years. */
  predicate IsAgeCheck(lib: Library, fields: seq<FieldDef>, c: Constraint, years: int) {
    && c.kind == "age_verification" && |c.fields| == 1 && c.fields[0] in Names(fields)
    && ValueAsInt(c, lib.numeral) == Some(years)
  }

  /** The compiled constraint accepts the encoded integers. */
  ghost predicate Admits(lib: Library, fields: seq<FieldDef>, clock: Clock, c: Constraint, ints: map<string, int>)
    requires Names(fields) <= ints.Keys
  {
    var compiled := Emit(Timestamped, lib, fields, clock, c);
    compiled.Some? && Satisfies(WitnessFor(fields, ints), compiled.value)
  }

  lemma AdmitsIsMeans(
      lib: Library, fields: seq<FieldDef>, clock: Clock, c: Constraint, ints: map<string, int>, years: int)
    requires Names(fields) <= ints.Keys && IsAgeCheck(lib, fields, c, years)
    ensures Admits(lib, fields, clock, c, ints) <==> Le(Field, ints[c.fields[0]], Threshold(clock.unix, years))
  {
    LayoutCovers(fields);
    hide LayoutOf, WitnessFor, Satisfies, Threshold, Encode, ValueAsInt, Names;
    assert Emit(Timestamped, lib, fields, clock, c).Some?;
    EmitIsExact(Timestamped, lib, fields, clock, c, ints);
    hide Emit;
  }

  /** With a non-negative birth timestamp and threshold, the compiled constraint compares seconds. */
  lemma AgeConstraintOnSeconds(
    lib: Library, fields: seq<FieldDef>, clock: Clock, c: Constraint, ints: map<string, int>, years: int)
    requires Names(fields) <= ints.Keys && IsAgeCheck(lib, fields, c, years)
    requires IsInt64(clock.unix) && IsInt64(years * SECONDS_PER_YEAR)
    requires 0 <= ints[c.fields[0]] <= MAX_INT64 && 0 <= clock.unix - years * SECONDS_PER_YEAR <= MAX_INT64
    ensures Admits(lib, fields, clock, c, ints) <==> ints[c.fields[0]] + years * SECONDS_PER_YEAR <= clock.unix
  {
    AdmitsIsMeans(lib, fields, clock, c, ints, years);
    assert Threshold(clock.unix, years) == clock.unix - years * SECONDS_PER_YEAR;
    SignedOrderIsExact(ints[c.fields[0]], Threshold(clock.unix, years));
    hide Admits, Threshold, IsAgeCheck, Encode;
  }

  /**
   A negative threshold lies near P, so it admits every non-negative timestamp; a negative
   timestamp is rejected by any other.
   */
  lemma AgeRuleSigns(
      lib: Library, fields: seq<FieldDef>, clock: Clock, c: Constraint, ints: map<string, int>, years: int)
    requires Names(fields) <= ints.Keys && IsAgeCheck(lib, fields, c, years)
    requires IsInt64(ints[c.fields[0]])
    ensures Admits(lib, fields, clock, c, ints) <==>
            var t := Threshold(clock.unix, years);
            if ints[c.fields[0]] >= 0 then t < 0 || ints[c.fields[0]] <= t else t < 0 && ints[c.fields[0]] <= t
  {
    AdmitsIsMeans(lib, fields, clock, c, ints, years);
    SignedOrderIsExact(ints[c.fields[0]], Threshold(clock.unix, years));
    hide Admits, IsAgeCheck, Encode, Wrap64;
  }

  /** A date of birth in the constraint's field, and a clock with a non-negative threshold. */
  predicate Setting(lib: Library, fields: seq<FieldDef>, c: Constraint, ints: map<string, int>, b: Date, n: nat) {
    && Names(fields) <= ints.Keys && IsAgeCheck(lib, fields, c, n)
    && IsDate(b) && ints[c.fields[0]] == BirthSeconds(b) && BirthSeconds(b) <= MAX_INT64
  }

  /** The clock has a threshold of zero or more: n 365-day years have passed since 1970. */
  predicate InTime(clock: Clock, n: nat) { 0 <= clock.unix <= MAX_INT64 && n * SECONDS_PER_YEAR <= clock.unix }

  /** The seconds of n 365-day years after birth, counted from the n-th birthday. */
  lemma YearsInSeconds(b: Date, n: nat)
    requires IsDate(b)
    ensures BirthSeconds(b) + n * SECONDS_PER_YEAR == SECONDS_PER_DAY * (Birthday(b, n) - LeapDays(b, n))
    ensures BirthSeconds(b) >= 0
  {
    BirthIsNonNegative(b);
    BirthdayIsExact(b, n);
  }

  /**
   When the rule accepts, at every clock since 1970: always while n 365-day years have
   not passed since 1970, and then from the n-th birthday less the leap days between
   birth and that birthday.
   */
  lemma AcceptanceIsExact(
    lib: Library, fields: seq<FieldDef>, clock: Clock, c: Constraint, ints: map<string, int>, b: Date, n: nat)
    requires Setting(lib, fields, c, ints, b, n)
    requires 0 <= clock.unix <= MAX_INT64 && n * SECONDS_PER_YEAR <= MAX_INT64
    ensures Admits(lib, fields, clock, c, ints) <==>
            clock.unix < n * SECONDS_PER_YEAR || SECONDS_PER_DAY * (Birthday(b, n) - LeapDays(b, n)) <= clock.unix
  {
    hide Birthday, IsDate, BirthSeconds, LeapDays, IsAgeCheck, Admits, Names;
    YearsInSeconds(b, n);
    if n * SECONDS_PER_YEAR <= clock.unix {
      AgeConstraintOnSeconds(lib, fields, clock, c, ints, n);
    } else {
      NegativeThreshold(clock.unix, n);
      AgeRuleSigns(lib, fields, clock, c, ints, n);
    }
  }

  lemma NegativeThreshold(unix: int, n: nat)
    requires 0 <= unix < n * SECONDS_PER_YEAR <= MAX_INT64
    ensures Threshold(unix, n) == unix - n * SECONDS_PER_YEAR
  {
  }

  /**
   The exact condition: at a clock, the rule says what the n-th birthday says iff n
   365-day years have passed since 1970 and the clock is not within the leap days
   before that birthday.
   */
  lemma BirthdayRuleIff(
    lib: Library, fields: seq<FieldDef>, clock: Clock, c: Constraint, ints: map<string, int>, b: Date, n: nat)
    requires Setting(lib, fields, c, ints, b, n)
    requires 0 <= clock.unix <= MAX_INT64 && n * SECONDS_PER_YEAR <= MAX_INT64
    ensures var birthday := SECONDS_PER_DAY * Birthday(b, n);
            (Admits(lib, fields, clock, c, ints) <==> birthday <= clock.unix) <==>
            && n * SECONDS_PER_YEAR <= clock.unix
            && !(birthday - SECONDS_PER_DAY * LeapDays(b, n) <= clock.unix < birthday)
  {
    hide Birthday, IsDate, BirthSeconds, LeapDays, IsAgeCheck, Admits, Names;
    YearsInSeconds(b, n);
    AcceptanceIsExact(lib, fields, clock, c, ints, b, n);
  }

  /**
   Everyone who has reached the n-th Gregorian birthday satisfies the constraint,
   and whoever satisfies it, with a non-negative threshold, is at most ceil(n / 4)
   days short of that birthday.
   */
  lemma AgeRuleVersusBirthdays(
    lib: Library, fields: seq<FieldDef>, clock: Clock, c: Constraint, ints: map<string, int>, b: Date, n: nat)
    requires Setting(lib, fields, c, ints, b, n) && 0 <= clock.unix <= MAX_INT64
    ensures SECONDS_PER_DAY * Birthday(b, n) <= clock.unix ==> Admits(lib, fields, clock, c, ints)
    ensures Admits(lib, fields, clock, c, ints) && n * SECONDS_PER_YEAR <= clock.unix ==>
              SECONDS_PER_DAY * (Birthday(b, n) - (n + 3) / 4) <= clock.unix
  {
    hide Birthday, IsDate, BirthSeconds, LeapDays, IsAgeCheck, Admits, Names;
    YearsInSeconds(b, n);
    LeapDaysAreFew(b, n);
    if n * SECONDS_PER_YEAR <= clock.unix {
      AcceptanceIsExact(lib, fields, clock, c, ints, b, n);
    }
  }

  /** The rule is the birthday rule at every clock with a threshold of zero or more. */
  ghost predicate MatchesBirthdays(
    lib: Library, fields: seq<FieldDef>, c: Constraint, ints: map<string, int>, b: Date, n: nat)
    requires Names(fields) <= ints.Keys && IsDate(b)
  {
    forall clock | InTime(clock, n) ::
      Admits(lib, fields, clock, c, ints) <==> SECONDS_PER_DAY * Birthday(b, n) <= clock.unix
  }

  /**
   For a date of birth and a number of years, at all clocks with a threshold of zero
   or more, the 365-day rule is the birthday rule exactly when no leap day lies between.
   */
  lemma MatchesBirthdaysIff(
    lib: Library, fields: seq<FieldDef>, c: Constraint, ints: map<string, int>, b: Date, n: nat)
    requires Setting(lib, fields, c, ints, b, n) && BirthSeconds(b) + n * SECONDS_PER_YEAR <= MAX_INT64
    ensures MatchesBirthdays(lib, fields, c, ints, b, n) <==> forall k: nat | k < n :: !IsLeap(SpannedYear(b, k))
  {
    hide Birthday, IsDate, BirthSeconds, LeapDays, IsAgeCheck, Admits, IsLeap, SpannedYear, Names;
    NoLeapDays(b, n);
    YearsInSeconds(b, n);
    if LeapDays(b, n) == 0 {
      forall clock | InTime(clock, n)
        ensures Admits(lib, fields, clock, c, ints) <==> SECONDS_PER_DAY * Birthday(b, n) <= clock.unix
      {
        AcceptanceIsExact(lib, fields, clock, c, ints, b, n);
      }
    } else {
      var clock := Clock(BirthSeconds(b) + n * SECONDS_PER_YEAR, 1970, 1, 1);
      assert InTime(clock, n);
      AcceptanceIsExact(lib, fields, clock, c, ints, b, n);
    }
  }

  // ----- a bound of more years than have passed since 1970 -----

  const NEW_YEAR_2020: Date := Date(2020, 1, 1)

  lemma NewYear2020()
    ensures IsDate(NEW_YEAR_2020) && BirthSeconds(NEW_YEAR_2020) == 1_577_836_800
  {
    YearsTo2003();
    assert DaysBeforeYear(2005) == 12784;
    assert DaysBeforeYear(2010) == 14610;
    assert DaysBeforeYear(2015) == 16436;
    assert DaysBeforeYear(2020) == 18262;
  }

  /** In June 2025 a bound of 56 years or more, such as 60, is met by someone born in 2020. */
  lemma FiveYearOldIsAdmitted(
    lib: Library, fields: seq<FieldDef>, clock: Clock, c: Constraint, ints: map<string, int>, n: nat)
    requires Names(fields) <= ints.Keys && IsAgeCheck(lib, fields, c, n) && 56 <= n
    requires n * SECONDS_PER_YEAR <= MAX_INT64
    requires clock.unix == 1_750_000_000 && ints[c.fields[0]] == 1_577_836_800
    ensures IsDate(NEW_YEAR_2020) && ints[c.fields[0]] == BirthSeconds(NEW_YEAR_2020)
    ensures clock.unix < SECONDS_PER_DAY * Birthday(NEW_YEAR_2020, n)
    ensures Admits(lib, fields, clock, c, ints)
  {
    NewYear2020();
    hide Birthday, IsDate, BirthSeconds, LeapDays, IsAgeCheck, Admits, Names;
    YearsInSeconds(NEW_YEAR_2020, n);
    AcceptanceIsExact(lib, fields, clock, c, ints, NEW_YEAR_2020, n);
  }

  lemma LeapBefore2100(y: int)
    requires 2003 <= y < 2100
    ensures IsLeap(y) <==> (y - 2003) % 4 == 1
  {
  }

  const MARCH_2003: Date := Date(2003, 3, 1)

  lemma {:induction false} LeapDaysSince2003(n: nat)
    requires n <= 96
    ensures LeapDays(MARCH_2003, n) == (n + 3) / 4
  {
    hide IsLeap;
    if n > 0 {
      LeapDaysSince2003(n - 1);
      LeapBefore2100(2003 + n);
    }
  }

  /**
   The ceil(n / 4) days are reached: someone born on 1 March 2003 is admitted that many days
   before every birthday until 2099.
   */
  lemma ShortfallIsReached(
      lib: Library, fields: seq<FieldDef>, clock: Clock, c: Constraint, ints: map<string, int>, n: nat)
    requires n <= 96 && Names(fields) <= ints.Keys && IsAgeCheck(lib, fields, c, n)
    requires IsDate(MARCH_2003) && ints[c.fields[0]] == BirthSeconds(MARCH_2003)
    requires clock.unix == SECONDS_PER_DAY * (Birthday(MARCH_2003, n) - (n + 3) / 4)
    ensures Admits(lib, fields, clock, c, ints)
  {
    hide Birthday, LeapDays, IsAgeCheck, Admits, BirthSeconds, Names, IsDate;
    LeapDaysSince2003(n);
    YearsInSeconds(MARCH_2003, n);
    March2003();
    AcceptanceIsExact(lib, fields, clock, c, ints, MARCH_2003, n);
  }

  lemma March2003()
    ensures IsDate(MARCH_2003) && BirthSeconds(MARCH_2003) == SECONDS_PER_DAY * Birthday(MARCH_2003, 0)
    ensures Birthday(MARCH_2003, 0) == 12112
  {
    YearsTo2003();
    assert DaysBeforeMonth(2003, 1) == 0 && DaysBeforeMonth(2003, 2) == 31 && DaysBeforeMonth(2003, 3) == 59;
  }

  lemma YearsTo2003()
    ensures DaysBeforeYear(2003) == 12053
  {
    assert DaysBeforeYear(1975) == 1826;
    assert DaysBeforeYear(1980) == 3652;
    assert DaysBeforeYear(1985) == 5479;
    assert DaysBeforeYear(1990) == 7305;
    assert DaysBeforeYear(1995) == 9131;
    assert DaysBeforeYear(2000) == 10957;
  }
}
