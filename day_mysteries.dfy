/** The mysteries of the rosary prayed on each day of the week
    (src/lib/day-mysteries.ts). The day is given as its weekday number,
    0 for Sunday, as `Date.getDay` returns it in the device's time zone. */
module DayMysteries {
  import opened Text

  datatype MysteryId = Gozosos | Dolorosos | Gloriosos | Luminosos

  /** `titleById`. */
  function Title(id: MysteryId): string {
    match id
    case Gozosos => "Gozosos"
    case Dolorosos => "Dolorosos"
    case Gloriosos => "Gloriosos"
    case Luminosos => "Luminosos"
  }

  /** `daysLabelById`: the days on which each set is prayed. */
  function DaysLabel(id: MysteryId): string {
    match id
    case Gozosos => "lunes / s\U{E1}bado"
    case Dolorosos => "martes / viernes"
    case Gloriosos => "mi\U{E9}rcoles / domingo"
    case Luminosos => "jueves"
  }

  predicate IsWeekday(w: int) {
    0 <= w < 7
  }

  /** `byWeekdayIndex`. */
  function ByWeekday(w: int): MysteryId
    requires IsWeekday(w)
  {
    if w == 0 then Gloriosos
    else if w == 1 then Gozosos
    else if w == 2 then Dolorosos
    else if w == 3 then Gloriosos
    else if w == 4 then Luminosos
    else if w == 5 then Dolorosos
    else Gozosos
  }

  /** The Spanish name of weekday `w`, Sunday first. */
  function DayName(w: int): string
    requires IsWeekday(w)
  {
    ["domingo", "lunes", "martes", "mi\U{E9}rcoles", "jueves", "viernes", "s\U{E1}bado"][w]
  }

  datatype TodayMystery = TodayMystery(id: MysteryId, title: string)

  /** `getTodayMystery`: the set of the day and its title. The time-zone
      argument is accepted and not used. */
  function GetTodayMystery(weekday: int, tz: string): (r: TodayMystery)
    requires IsWeekday(weekday)
    ensures r.title == Title(r.id)
  {
    var id := ByWeekday(weekday);
    TodayMystery(id, Title(id))
  }

  /** `dayLabelForToday`: the days label of the day's set. */
  function DayLabelForToday(weekday: int): (days: string)
    requires IsWeekday(weekday)
  {
    DaysLabel(GetTodayMystery(weekday, "America/Argentina/Buenos_Aires").id)
  }

  /** The weekdays on which `id` is prayed. */
  function DaysOf(id: MysteryId): set<int> {
    set w | 0 <= w < 7 && ByWeekday(w) == id
  }

  /** Sunday and Wednesday are glorious, Monday and Saturday joyful,
      Tuesday and Friday sorrowful, Thursday luminous. */
  lemma WeekdaysOfEachSet()
    ensures DaysOf(Gloriosos) == {0, 3}
    ensures DaysOf(Gozosos) == {1, 6}
    ensures DaysOf(Dolorosos) == {2, 5}
    ensures DaysOf(Luminosos) == {4}
  {
    assert forall w :: w in DaysOf(Gloriosos) <==> w == 0 || w == 3;
    assert forall w :: w in DaysOf(Gozosos) <==> w == 1 || w == 6;
    assert forall w :: w in DaysOf(Dolorosos) <==> w == 2 || w == 5;
    assert forall w :: w in DaysOf(Luminosos) <==> w == 4;
  }

  /** The luminous mysteries are prayed on Thursday only, each other set on
      exactly two days. */
  lemma DaysPerSet(id: MysteryId)
    ensures |DaysOf(id)| == (if id == Luminosos then 1 else 2)
  {
    WeekdaysOfEachSet();
  }

  /** The table covers every day and its labels agree with it: the label
      of the day's set names that day. */
  lemma LabelNamesTheDay(w: int)
    requires IsWeekday(w)
    ensures DayLabelForToday(w) == DaysLabel(ByWeekday(w))
    ensures Contains(DayLabelForToday(w), DayName(w))
  {
    LabelsNameTheirDays();
  }

  /** Where each day's name occurs in the label of its set. */
  lemma LabelsNameTheirDays()
    ensures Contains(DaysLabel(ByWeekday(0)), DayName(0))
    ensures Contains(DaysLabel(ByWeekday(1)), DayName(1))
    ensures Contains(DaysLabel(ByWeekday(2)), DayName(2))
    ensures Contains(DaysLabel(ByWeekday(3)), DayName(3))
    ensures Contains(DaysLabel(ByWeekday(4)), DayName(4))
    ensures Contains(DaysLabel(ByWeekday(5)), DayName(5))
    ensures Contains(DaysLabel(ByWeekday(6)), DayName(6))
  {
    assert OccursAt(DaysLabel(ByWeekday(0)), DayName(0), 12);
    assert OccursAt(DaysLabel(ByWeekday(1)), DayName(1), 0);
    assert OccursAt(DaysLabel(ByWeekday(2)), DayName(2), 0);
    assert OccursAt(DaysLabel(ByWeekday(3)), DayName(3), 0);
    assert OccursAt(DaysLabel(ByWeekday(4)), DayName(4), 0);
    assert OccursAt(DaysLabel(ByWeekday(5)), DayName(5), 9);
    assert OccursAt(DaysLabel(ByWeekday(6)), DayName(6), 8);
  }

  /** The result depends on the weekday alone. */
  lemma TimeZoneIgnored(w: int, tz1: string, tz2: string)
    requires IsWeekday(w)
    ensures GetTodayMystery(w, tz1) == GetTodayMystery(w, tz2)
    ensures GetTodayMystery(w, tz1).id == ByWeekday(w)
  {
  }
}
