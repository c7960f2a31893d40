/** The liturgical calendar (src/lib/liturgical.ts): the date of Easter,
    the season of a day, and the colour palette of each season. The day is
    given as a local calendar date; converting the current instant to the
    time zone of Buenos Aires is not part of this model. Integer division
    is `Math.floor` of a quotient by a positive constant, which is Dafny's
    `/`; the remainder operator is JavaScript's, `JsRem`. */
module Liturgical {
  import opened Calendar

  /** JavaScript's `%`: the remainder takes the sign of the dividend. */
  function JsRem(a: int, b: int): (r: int)
    requires b > 0
    ensures a >= 0 ==> r == a % b
    ensures a < 0 ==> -b < r <= 0
  {
    if a >= 0 then a % b else -((-a) % b)
  }

  // ---------------------------------------------------------------------------
  // Easter

  /** The intermediate values of the Anonymous Gregorian computus that its
      range properties are about, and the resulting month (1-based) and day. */
  datatype Computus = Computus(h: int, l: int, m: int, month: int, day: int)

  /** `easterSunday` up to the final `Date.UTC`. */
  function EasterComputus(year: int): Computus {
    var a := JsRem(year, 19);
    var b := year / 100;
    var c := JsRem(year, 100);
    var d := b / 4;
    var e := JsRem(b, 4);
    var f := (b + 8) / 25;
    var g := (b - f + 1) / 3;
    var h := JsRem(19 * a + b - d - g + 15, 30);
    var i := c / 4;
    var k := JsRem(c, 4);
    var l := JsRem(32 + 2 * e + 2 * i - h - k, 7);
    var m := (a + 11 * h + 22 * l) / 451;
    var month := (h + l - 7 * m + 114) / 31;
    var day := JsRem(h + l - 7 * m + 114, 31) + 1;
    Computus(h, l, m, month, day)
  }

  /** For every year from 0 on, `h` is in 0..29, `l` in 0..6 and `m` is 0
      or 1, so Easter falls between March 15 and April 26. */
  lemma ComputusRanges(year: int)
    requires year >= 0
    ensures var c := EasterComputus(year);
      && 0 <= c.h <= 29 && 0 <= c.l <= 6 && (c.m == 0 || c.m == 1)
      && (c.month == 3 || c.month == 4) && 1 <= c.day <= 31
      && (c.month == 3 ==> c.day >= 15)
      && (c.month == 4 ==> c.day <= 26)
  {
    var a := year % 19;
    var b := year / 100;
    var c := year % 100;
    var d := b / 4;
    var e := b % 4;
    var f := (b + 8) / 25;
    var g := (b - f + 1) / 3;
    assert b - d - g >= 0;
    var h := (19 * a + b - d - g + 15) % 30;
    var i := c / 4;
    var k := c % 4;
    assert 32 + 2 * e + 2 * i - h - k >= 0;
    var l := (32 + 2 * e + 2 * i - h - k) % 7;
    ComputusTail(a, h, l);
  }

  /** The last steps of the computus, from `a` in 0..18, `h` in 0..29 and
      `l` in 0..6: `m` is 0 or 1 and the month and day land between
      March 15 and April 26. */
  lemma ComputusTail(a: int, h: int, l: int)
    requires 0 <= a <= 18 && 0 <= h <= 29 && 0 <= l <= 6
    ensures var m := (a + 11 * h + 22 * l) / 451;
      var v := h + l - 7 * m + 114;
      && (m == 0 || m == 1)
      && (v / 31 == 3 || v / 31 == 4)
      && (v / 31 == 3 ==> JsRem(v, 31) + 1 >= 15)
      && (v / 31 == 4 ==> JsRem(v, 31) + 1 <= 26)
      && 1 <= JsRem(v, 31) + 1 <= 31
  {
    var m := (a + 11 * h + 22 * l) / 451;
    assert 0 <= a + 11 * h + 22 * l < 902;
    assert m == 1 ==> h >= 28;
    var v := h + l - 7 * m + 114;
    assert 107 <= v <= 149;
  }

  /** `easterSunday(year)`, for the years from 0 on. */
  function EasterSunday(year: int): (r: Date)
    requires year >= 0
    ensures Valid(r)
  {
    var c := EasterComputus(year);
    ComputusRanges(year);
    DateUtc(year, c.month - 1, c.day)
  }

  /** Easter of a year from 100 on is that year's day computed above. */
  lemma EasterSundayDate(year: int)
    requires year >= 100
    ensures var c := EasterComputus(year);
      EasterSunday(year) == Date(year, c.month - 1, c.day)
  {
    var c := EasterComputus(year);
    ComputusRanges(year);
    DateUtcOfValid(year, c.month - 1, c.day);
  }

  /** Two years whose Easter is known: 31 March 2024 and 20 April 2025,
      both Sundays (by `EasterSundayDate`, these are `EasterSunday`'s dates). */
  lemma Easter2024()
    ensures EasterComputus(2024).month == 3 && EasterComputus(2024).day == 31
    ensures Weekday(Date(2024, 2, 31)) == 0
  {
    assert JsRem(2024, 19) == 10 && JsRem(2024, 100) == 24 && JsRem(20, 4) == 0;
    assert JsRem(214, 30) == 4 && JsRem(24, 4) == 0 && JsRem(40, 7) == 5 && JsRem(123, 31) == 30;
    assert EasterComputus(2024) == Computus(4, 5, 0, 3, 31);
    March31Of2024IsSunday();
  }

  lemma Easter2025()
    ensures EasterComputus(2025).month == 4 && EasterComputus(2025).day == 20
    ensures Weekday(Date(2025, 3, 20)) == 0
  {
    assert JsRem(2025, 19) == 11 && JsRem(2025, 100) == 25 && JsRem(20, 4) == 0;
    assert JsRem(233, 30) == 23 && JsRem(25, 4) == 1 && JsRem(20, 7) == 6 && JsRem(143, 31) == 19;
    assert EasterComputus(2025) == Computus(23, 6, 0, 4, 20);
    April20Of2025IsSunday();
  }

  lemma March31Of2024IsSunday()
    ensures Weekday(Date(2024, 2, 31)) == 0
  {
    assert DaysBeforeYear(2024) == 739251;
  }

  lemma April20Of2025IsSunday()
    ensures Weekday(Date(2025, 3, 20)) == 0
  {
    assert DaysBeforeYear(2025) == 739617;
  }

  // ---------------------------------------------------------------------------
  // Seasons

  datatype Season = Advent | Christmas | Lent | Easter | Pentecost | Ordinary

  /** The day numbers `currentSeason` compares the day against, for year `y`. */
  datatype Landmarks = Landmarks(
    christmas: int,
    baptism: int,
    advent: int,
    ashWed: int,
    easter: int,
    pentecost: int)

  /** The Sunday on or before 4 December (`previousSunday` of 21 days
      before 25 December), where `currentSeason` starts Advent. */
  function AdventStart(y: int): Date {
    PreviousSunday(AddDays(DateUtc(y, 11, 25), -21))
  }

  /** The landmarks as `currentSeason` computes them: each date is rebuilt
      with `Date.UTC` from its UTC parts, and Ash Wednesday with the year
      `y` rather than its own. */
  function LandmarksOf(y: int): Landmarks
    requires y >= 0
  {
    var easter := EasterSunday(y);
    var ashWed := AddDays(easter, -46);
    var pentecost := AddDays(easter, 49);
    var baptism := NextSunday(DateUtc(y + 1, 0, 6));
    Landmarks(
      DayNumber(DateUtc(y, 11, 25)),
      DayNumber(DateUtc(baptism.year, baptism.month0, baptism.day)),
      DayNumber(AdventStart(y)),
      DayNumber(DateUtc(y, ashWed.month0, ashWed.day)),
      DayNumber(DateUtc(easter.year, easter.month0, easter.day)),
      DayNumber(DateUtc(pentecost.year, pentecost.month0, pentecost.day)))
  }

  /** The chain of checks of `currentSeason`, in its order, on day number `t`. */
  function Classify(t: int, lm: Landmarks): Season {
    if lm.christmas <= t < lm.baptism then Christmas
    else if lm.advent <= t < lm.christmas then Advent
    else if lm.ashWed <= t < lm.easter then Lent
    else if lm.easter <= t <= lm.pentecost then (if t == lm.pentecost then Pentecost else Easter)
    else Ordinary
  }

  /** `currentSeason` for the local calendar date `local`. */
  function CurrentSeason(local: Date): Season
    requires Valid(local) && local.year >= 0
  {
    var y := local.year;
    Classify(DayNumber(DateUtc(y, local.month0, local.day)), LandmarksOf(y))
  }

  /** Easter's day number in year `y`. */
  function EasterDay(y: int): int
    requires y >= 0
  {
    DayNumber(EasterSunday(y))
  }

  /** A day that exists and is not before 1 January of `y` is in year `y` or later. */
  lemma YearAtLeast(d: Date, y: int)
    requires Valid(d) && DayNumber(d) >= DayNumber(Date(y, 0, 1))
    ensures d.year >= y
  {
    if d.year < y {
      EarlierYear(d, Date(y, 0, 1));
    }
  }

  /** What the landmarks of a year from 100 on are: Christmas is 25
      December; the end of Christmas lies in the next year; Advent starts
      on a Sunday between 28 November and 4 December; Lent starts 46 days
      before Easter; Pentecost is 49 days after Easter; and Lent and the
      Easter season lie inside the year, before Advent. */
  lemma LandmarksFacts(y: int)
    requires y >= 100
    ensures var lm := LandmarksOf(y);
      && lm.christmas == DayNumber(Date(y, 11, 25))
      && lm.baptism > DayNumber(Date(y, 11, 31))
      && DayNumber(Date(y, 10, 28)) <= lm.advent <= DayNumber(Date(y, 11, 4))
      && lm.easter == EasterDay(y)
      && lm.ashWed == EasterDay(y) - 46
      && lm.pentecost == EasterDay(y) + 49
      && DayNumber(Date(y, 0, 1)) <= lm.ashWed
      && lm.pentecost < DayNumber(Date(y, 10, 1))
  {
    var lm := LandmarksOf(y);
    var easter := EasterSunday(y);
    EasterSundayDate(y);
    ComputusRanges(y);
    EasterInYear(y);
    ChristmasLandmark(y);
    BaptismLandmark(y);
    AdventLandmark(y);
    AshWednesdayLandmark(y, easter);
    PentecostLandmark(y, easter);
  }

  /** Easter lies at least 73 days into its year and at least 200 days
      before 28 November. */
  lemma EasterInYear(y: int)
    requires y >= 100
    ensures DayNumber(Date(y, 0, 1)) + 73 <= EasterDay(y) <= DayNumber(Date(y, 10, 28)) - 200
  {
    var c := EasterComputus(y);
    EasterSundayDate(y);
    ComputusRanges(y);
    var dby := DaysBeforeYear(y);
    assert DayNumber(Date(y, 0, 1)) == dby - EpochDays;
    assert DayNumber(Date(y, 10, 28)) == dby + DaysBeforeMonth(y, 10) + 27 - EpochDays;
    assert DaysBeforeMonth(y, 10) >= 304;
    if c.month == 3 {
      assert DaysBeforeMonth(y, 2) >= 59;
      assert EasterDay(y) == dby + DaysBeforeMonth(y, 2) + c.day - 1 - EpochDays;
    } else {
      assert DaysBeforeMonth(y, 3) <= 91;
      assert EasterDay(y) == dby + DaysBeforeMonth(y, 3) + c.day - 1 - EpochDays;
    }
  }

  lemma ChristmasLandmark(y: int)
    requires y >= 100
    ensures LandmarksOf(y).christmas == DayNumber(Date(y, 11, 25))
  {
    DateUtcOfValid(y, 11, 25);
  }

  lemma BaptismLandmark(y: int)
    requires y >= 100
    ensures LandmarksOf(y).baptism > DayNumber(Date(y, 11, 31))
  {
    DateUtcOfValid(y + 1, 0, 6);
    var jan6 := Date(y + 1, 0, 6);
    var baptism := NextSunday(jan6);
    NextSundayIsSunday(jan6);
    YearStep(y);
    YearAtLeast(baptism, y + 1);
    DateUtcOfValid(baptism.year, baptism.month0, baptism.day);
  }

  lemma AdventLandmark(y: int)
    requires y >= 100
    ensures DayNumber(Date(y, 10, 28)) <= LandmarksOf(y).advent <= DayNumber(Date(y, 11, 4))
  {
    DateUtcOfValid(y, 11, 25);
    var dec4 := AddDays(Date(y, 11, 25), -21);
    AddDaysNumber(Date(y, 11, 25), -21);
    PreviousSundayIsSunday(dec4);
  }

  lemma AshWednesdayLandmark(y: int, easter: Date)
    requires y >= 100 && easter == EasterSunday(y)
    requires DayNumber(Date(y, 0, 1)) + 73 <= DayNumber(easter) <= DayNumber(Date(y, 10, 28)) - 200
    ensures LandmarksOf(y).ashWed == DayNumber(easter) - 46
  {
    var ashWed := AddDays(easter, -46);
    AddDaysNumber(easter, -46);
    YearStep(y);
    YearOfDayNumber(ashWed, y);
    DateUtcOfValid(y, ashWed.month0, ashWed.day);
  }

  lemma PentecostLandmark(y: int, easter: Date)
    requires y >= 100 && easter == EasterSunday(y)
    requires DayNumber(Date(y, 0, 1)) + 73 <= DayNumber(easter)
    ensures LandmarksOf(y).pentecost == DayNumber(easter) + 49
    ensures LandmarksOf(y).easter == DayNumber(easter)
  {
    var pentecost := AddDays(easter, 49);
    AddDaysNumber(easter, 49);
    YearAtLeast(easter, y);
    YearAtLeast(pentecost, y);
    DateUtcOfValid(easter.year, easter.month0, easter.day);
    DateUtcOfValid(pentecost.year, pentecost.month0, pentecost.day);
  }

  /** The day number `currentSeason` classifies is the local day's, and it
      lies within its year. */
  lemma LocalDay(local: Date)
    requires Valid(local) && local.year >= 100
    ensures DayNumber(DateUtc(local.year, local.month0, local.day)) == DayNumber(local)
    ensures DayNumber(Date(local.year, 0, 1)) <= DayNumber(local) <= DayNumber(Date(local.year, 11, 31))
  {
    DateUtcOfValid(local.year, local.month0, local.day);
    DayOfYearBounds(local);
  }

  /** Christmas runs from 25 December to the end of the year; in particular
      no day of early January is Christmas. */
  lemma ChristmasSeason(local: Date)
    requires Valid(local) && local.year >= 100
    ensures CurrentSeason(local) == Christmas <==> local.month0 == 11 && local.day >= 25
  {
    var y := local.year;
    SeasonWindows(local);
    ChristmasLandmark(y);
    BaptismLandmark(y);
    LateDecember(local);
  }

  /** Advent runs from the Sunday on or before 4 December through 24 December. */
  lemma AdventSeason(local: Date)
    requires Valid(local) && local.year >= 100
    ensures CurrentSeason(local) == Advent <==>
      DayNumber(AdventStart(local.year)) <= DayNumber(local) < DayNumber(Date(local.year, 11, 25))
  {
    SeasonWindows(local);
    ChristmasLandmark(local.year);
  }

  /** Lent is the 46 days before Easter. */
  lemma LentSeason(local: Date)
    requires Valid(local) && local.year >= 100
    ensures CurrentSeason(local) == Lent <==>
      EasterDay(local.year) - 46 <= DayNumber(local) < EasterDay(local.year)
  {
    SeasonWindows(local);
    EasterLandmarks(local.year);
  }

  /** The Easter season is the 49 days from Easter Sunday on. */
  lemma EasterSeason(local: Date)
    requires Valid(local) && local.year >= 100
    ensures CurrentSeason(local) == Easter <==>
      EasterDay(local.year) <= DayNumber(local) < EasterDay(local.year) + 49
  {
    SeasonWindows(local);
    EasterLandmarks(local.year);
  }

  /** Pentecost is one day, 49 days after Easter. */
  lemma PentecostSeason(local: Date)
    requires Valid(local) && local.year >= 100
    ensures CurrentSeason(local) == Pentecost <==> DayNumber(local) == EasterDay(local.year) + 49
  {
    SeasonWindows(local);
    EasterLandmarks(local.year);
  }

  /** The landmarks of a year from 100 on come in the order Ash Wednesday,
      Easter, Pentecost, Advent, Christmas, end of Christmas. */
  lemma LandmarksOrdered(y: int)
    requires y >= 100
    ensures var lm := LandmarksOf(y);
      lm.ashWed < lm.easter < lm.pentecost < lm.advent < lm.christmas < lm.baptism
  {
    LandmarksFacts(y);
  }

  /** On ordered landmarks the chain of checks puts each day in the window
      of exactly one season. */
  lemma ClassifyWindows(t: int, lm: Landmarks)
    requires lm.ashWed < lm.easter < lm.pentecost < lm.advent < lm.christmas < lm.baptism
    ensures Classify(t, lm) == Christmas <==> lm.christmas <= t < lm.baptism
    ensures Classify(t, lm) == Advent <==> lm.advent <= t < lm.christmas
    ensures Classify(t, lm) == Lent <==> lm.ashWed <= t < lm.easter
    ensures Classify(t, lm) == Easter <==> lm.easter <= t < lm.pentecost
    ensures Classify(t, lm) == Pentecost <==> t == lm.pentecost
  {
  }

  /** A local day's season is its window among the ordered landmarks of its year. */
  lemma SeasonWindows(local: Date)
    requires Valid(local) && local.year >= 100
    ensures var lm := LandmarksOf(local.year);
      && CurrentSeason(local) == Classify(DayNumber(local), lm)
      && lm.ashWed < lm.easter < lm.pentecost < lm.advent < lm.christmas < lm.baptism
      && (CurrentSeason(local) == Christmas <==> lm.christmas <= DayNumber(local) < lm.baptism)
      && (CurrentSeason(local) == Advent <==> lm.advent <= DayNumber(local) < lm.christmas)
      && (CurrentSeason(local) == Lent <==> lm.ashWed <= DayNumber(local) < lm.easter)
      && (CurrentSeason(local) == Easter <==> lm.easter <= DayNumber(local) < lm.pentecost)
      && (CurrentSeason(local) == Pentecost <==> DayNumber(local) == lm.pentecost)
      && DayNumber(local) <= DayNumber(Date(local.year, 11, 31))
  {
    LocalDay(local);
    LandmarksOrdered(local.year);
    ClassifyWindows(DayNumber(local), LandmarksOf(local.year));
  }

  /** Easter, Ash Wednesday and Pentecost as landmarks. */
  lemma EasterLandmarks(y: int)
    requires y >= 100
    ensures var lm := LandmarksOf(y);
      lm.easter == EasterDay(y) && lm.ashWed == EasterDay(y) - 46 && lm.pentecost == EasterDay(y) + 49
  {
    LandmarksFacts(y);
  }

  /** A day of year `y` is on or after 25 December exactly when it is in
      December from the 25th on. */
  lemma LateDecember(local: Date)
    requires Valid(local)
    ensures DayNumber(local) >= DayNumber(Date(local.year, 11, 25)) <==> local.month0 == 11 && local.day >= 25
  {
    var y, m := local.year, local.month0;
    if m < 11 {
      assert DaysBeforeMonth(y, m) + MonthLength(y, m) <= DaysBeforeMonth(y, 11);
    }
  }

  // ---------------------------------------------------------------------------
  // Two departures from the liturgical year, and the seasons as intended

  /** When Christmas is a Sunday, 4 December is a Sunday too, and Advent
      starts there, a week late: the first Sunday of Advent, 27 November,
      still reads as ordinary time. 2022 is such a year. */
  lemma AdventStartsLateWhenChristmasIsSunday(y: int)
    requires y >= 100 && Weekday(Date(y, 11, 25)) == 0
    ensures DayNumber(AdventStart(y)) == DayNumber(Date(y, 11, 25)) - 21
    ensures Weekday(Date(y, 10, 27)) == 0
    ensures CurrentSeason(Date(y, 10, 27)) == Ordinary
  {
    AdventStartOnFourthDecember(y);
    FourWeeksBeforeChristmas(y);
    OrdinaryBeforeAdvent(y);
  }

  /** 27 November is ordinary time in a year whose Advent starts after it. */
  lemma OrdinaryBeforeAdvent(y: int)
    requires y >= 100
    requires DayNumber(Date(y, 10, 27)) < DayNumber(AdventStart(y))
    ensures CurrentSeason(Date(y, 10, 27)) == Ordinary
  {
    var nov27 := Date(y, 10, 27);
    assert !(EasterDay(y) - 46 <= DayNumber(nov27) <= EasterDay(y) + 49) by {
      EasterInYear(y);
      assert DayNumber(nov27) == DayNumber(Date(y, 10, 28)) - 1;
    }
    OrdinaryByElimination(nov27);
  }

  /** A day of a year from 100 on that is in none of the five seasons'
      windows is ordinary time. */
  lemma OrdinaryByElimination(local: Date)
    requires Valid(local) && local.year >= 100
    requires !(local.month0 == 11 && local.day >= 25)
    requires !(DayNumber(AdventStart(local.year)) <= DayNumber(local) < DayNumber(Date(local.year, 11, 25)))
    requires !(EasterDay(local.year) - 46 <= DayNumber(local) <= EasterDay(local.year) + 49)
    ensures CurrentSeason(local) == Ordinary
  {
    var s := CurrentSeason(local);
    assert s != Christmas by { ChristmasSeason(local); }
    assert s != Advent by { AdventSeason(local); }
    assert s != Lent by { LentSeason(local); }
    assert s != Easter by { EasterSeason(local); }
    assert s != Pentecost by { PentecostSeason(local); }
  }

  lemma AdventStartOnFourthDecember(y: int)
    requires y >= 100 && Weekday(Date(y, 11, 25)) == 0
    ensures DayNumber(AdventStart(y)) == DayNumber(Date(y, 11, 25)) - 21
  {
    FourthDecemberIsSunday(y);
    AddDaysNumber(Date(y, 11, 25), -21);
  }

  /** When 25 December is a Sunday, 21 days before it is a Sunday, its own
      previous Sunday. */
  lemma FourthDecemberIsSunday(y: int)
    requires y >= 100 && Weekday(Date(y, 11, 25)) == 0
    ensures AdventStart(y) == AddDays(Date(y, 11, 25), -21)
  {
    DateUtcOfValid(y, 11, 25);
    WeeksBeforeSunday(Date(y, 11, 25), 3);
  }

  /** 27 November is four weeks before 25 December, on the same weekday. */
  lemma FourWeeksBeforeChristmas(y: int)
    ensures DayNumber(Date(y, 10, 27)) == DayNumber(Date(y, 11, 25)) - 28
    ensures Weekday(Date(y, 10, 27)) == Weekday(Date(y, 11, 25))
  {
    var n := DayNumber(Date(y, 11, 25)) + 4;
    assert DayNumber(Date(y, 10, 27)) + 4 == n - 28;
    assert (n - 28) % 7 == n % 7;
  }

  lemma ChristmasIsSundayIn2022()
    ensures Weekday(Date(2022, 11, 25)) == 0
  {
    assert DaysBeforeYear(2022) == 738521;
  }

  /** A date in January is compared with 25 December of its own year, so
      the days from New Year to the Baptism of the Lord, which the
      computed end of Christmas is meant to include, are never Christmas:
      New Year's Day reads as ordinary time. */
  lemma NewYearIsOrdinary(y: int)
    requires y >= 100
    ensures CurrentSeason(Date(y, 0, 1)) == Ordinary
  {
    EasterInYear(y);
    LandmarksFacts(y);
    OrdinaryByElimination(Date(y, 0, 1));
  }

  /** The first Sunday of Advent: the fourth Sunday before Christmas, the
      Sunday on or before 3 December. */
  function IntendedAdventStart(y: int): Date {
    PreviousSunday(AddDays(DateUtc(y, 11, 24), -21))
  }

  /** The first Sunday of Advent is a Sunday 22 to 28 days before
      Christmas, so Advent holds exactly four Sundays. */
  lemma IntendedAdventStartIsFourthSunday(y: int)
    requires y >= 100
    ensures Weekday(IntendedAdventStart(y)) == 0
    ensures DayNumber(Date(y, 11, 25)) - 28 <= DayNumber(IntendedAdventStart(y)) <= DayNumber(Date(y, 11, 25)) - 22
  {
    DateUtcOfValid(y, 11, 24);
    var dec3 := AddDays(Date(y, 11, 24), -21);
    AddDaysNumber(Date(y, 11, 24), -21);
    PreviousSundayIsSunday(dec3);
  }

  /** The season with both departures corrected: Christmas also covers
      January up to the Baptism of the Lord (the Sunday after 6 January)
      of the same year, and Advent starts on its first Sunday. */
  function IntendedSeason(local: Date): Season
    requires Valid(local) && local.year >= 0
  {
    var y := local.year;
    var t := DayNumber(DateUtc(y, local.month0, local.day));
    if t < DayNumber(NextSunday(DateUtc(y, 0, 6))) then Christmas
    else Classify(t, LandmarksOf(y).(advent := DayNumber(IntendedAdventStart(y))))
  }

  /** The Baptism of the Lord falls between 7 and 13 January, before Lent. */
  lemma BaptismThisYear(y: int)
    requires y >= 100
    ensures DayNumber(Date(y, 0, 1)) + 6 <= DayNumber(NextSunday(DateUtc(y, 0, 6))) <= DayNumber(Date(y, 0, 1)) + 12
    ensures DayNumber(NextSunday(DateUtc(y, 0, 6))) < LandmarksOf(y).ashWed
  {
    DateUtcOfValid(y, 0, 6);
    NextSundayIsSunday(Date(y, 0, 6));
    LandmarksFacts(y);
    EasterInYear(y);
  }

  /** The corrected season of a day of a year from 100 on, as the chain of
      checks applied to its day number. */
  lemma IntendedSeasonIs(local: Date)
    requires Valid(local) && local.year >= 100
    ensures var y := local.year;
      var t := DayNumber(local);
      IntendedSeason(local) ==
        if t < DayNumber(NextSunday(DateUtc(y, 0, 6))) then Christmas
        else Classify(t, LandmarksOf(y).(advent := DayNumber(IntendedAdventStart(y))))
    ensures CurrentSeason(local) == Classify(DayNumber(local), LandmarksOf(local.year))
  {
    LocalDay(local);
  }

  /** Before both Advent starts, the start of Advent does not matter. */
  lemma ClassifyBeforeAdvent(t: int, lm: Landmarks, a: int)
    requires t < lm.advent && t < a && t < lm.christmas
    ensures Classify(t, lm.(advent := a)) == Classify(t, lm)
  {
  }

  /** Lent, Easter and Pentecost are only given between Ash Wednesday and Pentecost. */
  lemma ClassifyMiddle(t: int, lm: Landmarks)
    requires Classify(t, lm) == Lent || Classify(t, lm) == Easter || Classify(t, lm) == Pentecost
    ensures lm.ashWed <= t < lm.easter || lm.easter <= t <= lm.pentecost
  {
  }

  /** Corrected Christmas: from 25 December to the end of the year, and
      from New Year up to the Baptism of the Lord. */
  lemma IntendedChristmasSeason(local: Date)
    requires Valid(local) && local.year >= 100
    ensures IntendedSeason(local) == Christmas <==>
      (local.month0 == 11 && local.day >= 25)
      || DayNumber(local) < DayNumber(NextSunday(DateUtc(local.year, 0, 6)))
  {
    var y := local.year;
    IntendedSeasonIs(local);
    ChristmasSeason(local);
    var b := DayNumber(NextSunday(DateUtc(y, 0, 6)));
    var a := DayNumber(IntendedAdventStart(y));
    if DayNumber(local) >= b {
      assert IntendedSeason(local) == Classify(DayNumber(local), LandmarksOf(y).(advent := a));
    }
  }

  /** Corrected Advent: from its first Sunday through 24 December. */
  lemma IntendedAdventSeason(local: Date)
    requires Valid(local) && local.year >= 100
    ensures IntendedSeason(local) == Advent <==>
      DayNumber(IntendedAdventStart(local.year)) <= DayNumber(local) < DayNumber(Date(local.year, 11, 25))
  {
    var y := local.year;
    IntendedSeasonIs(local);
    LandmarksFacts(y);
    IntendedAdventStartIsFourthSunday(y);
    BaptismThisYear(y);
  }

  /** Outside Advent and Christmas the correction changes nothing. */
  lemma IntendedSeasonElsewhere(local: Date)
    requires Valid(local) && local.year >= 100
    requires CurrentSeason(local) == Lent || CurrentSeason(local) == Easter || CurrentSeason(local) == Pentecost
    ensures IntendedSeason(local) == CurrentSeason(local)
  {
    var y := local.year;
    var t := DayNumber(local);
    var lm := LandmarksOf(y);
    var a := DayNumber(IntendedAdventStart(y));
    IntendedSeasonIs(local);
    ClassifyMiddle(t, lm);
    assert lm.ashWed <= t < DayNumber(Date(y, 10, 1)) by { LandmarksFacts(y); }
    assert t >= DayNumber(NextSunday(DateUtc(y, 0, 6))) by { BaptismThisYear(y); }
    assert t < lm.advent && t < lm.christmas by { LandmarksFacts(y); }
    assert t < a by { IntendedAdventStartIsFourthSunday(y); }
    ClassifyBeforeAdvent(t, lm, a);
  }

  // ---------------------------------------------------------------------------
  // Palettes

  /** The colours of a season. */
  datatype Palette = Palette(
    name: Season,
    primary: string, primaryText: string,
    secondary: string, secondaryText: string,
    bg1: string, bg2: string,
    badgeBg: string, badgeText: string,
    border: string)

  /** `paletteFor`. */
  function PaletteFor(s: Season): Palette {
    match s
    case Advent => Palette(Advent, "#6b4ca6", "#ffffff", "#efe6ff", "#1f2937", "#fffaf2",
      "rgba(107,76,166,0.16)", "#f3e8ff", "#5b21b6", "rgba(15,23,42,0.08)")
    case Christmas => Palette(Christmas, "#f5d28a", "#0b1020", "#fff7e6", "#7a5a1c", "#fffdf8",
      "rgba(245,210,138,0.18)", "#fff7e6", "#7a5a1c", "rgba(15,23,42,0.08)")
    case Lent => Palette(Lent, "#5a3e8e", "#ffffff", "#eee8ff", "#1f2937", "#fbfaf6",
      "rgba(90,62,142,0.16)", "#efe6ff", "#4c1d95", "rgba(15,23,42,0.08)")
    case Easter => Palette(Easter, "#5d87ff", "#0b1020", "#e7efff", "#1f2937", "#faf7f0",
      "rgba(93,135,255,0.18)", "#ffffff", "#1f2937", "rgba(15,23,42,0.08)")
    case Pentecost => Palette(Pentecost, "#e24a3b", "#fff", "#ffe6e3", "#7a1c15", "#fffaf6",
      "rgba(226,74,59,0.14)", "#ffe6e3", "#7a1c15", "rgba(15,23,42,0.08)")
    case Ordinary => Palette(Ordinary, "#22a06b", "#07210f", "#e8f7ef", "#0f5132", "#f8fcf9",
      "rgba(34,160,107,0.12)", "#e8f7ef", "#0f5132", "rgba(15,23,42,0.08)")
  }

  /** Every season's palette is named after it, so distinct seasons get
      distinct palettes; all share one border colour. */
  lemma PaletteNamed(s: Season)
    ensures PaletteFor(s).name == s
    ensures PaletteFor(s).border == "rgba(15,23,42,0.08)"
  {
  }
}
