/** The school calendar: how a day is classified when the calendar is locked
    for tracking, the legend markers on days, the form that creates an event
    with its linked reminders, and the iCalendar export. */
module CalendarView {
  import opened Wrappers
  import opened Seqs
  import opened Text
  import opened Dates
  import opened Types
  import opened KitchenLogic

  // --- Lookups -------------------------------------------------------------------

  /** `getLegendItem(id)`: the first legend item with that id; nothing for an
      event without a legend id. */
  function FindLegend(items: seq<LegendItem>, id: Option<Id>): (r: Option<LegendItem>)
    ensures r.Some? ==> id.Some? && r.value in items && r.value.id == id.value
    ensures r.None? ==> id.None? || forall i :: 0 <= i < |items| ==> items[i].id != id.value
  {
    if items == [] || id.None? then None
    else if items[0].id == id.value then Some(items[0])
    else FindLegend(items[1..], id)
  }

  /** The legend item found is the first one with that id. */
  lemma {:induction false} FindLegendFirst(items: seq<LegendItem>, id: Option<Id>)
    requires FindLegend(items, id).Some?
    ensures exists i :: 0 <= i < |items| && items[i] == FindLegend(items, id).value && forall j :: 0 <= j < i ==> items[j].id != id.value
  {
    if items[0].id != id.value {
      FindLegendFirst(items[1..], id);
      var i :| 0 <= i < |items[1..]| && items[1..][i] == FindLegend(items[1..], id).value
        && forall j :: 0 <= j < i ==> items[1..][j].id != id.value;
      assert items[i + 1] == FindLegend(items, id).value;
    } else {
      assert items[0] == FindLegend(items, id).value;
    }
  }

  /** The test "is dated `d`". */
  function OnDate(d: Day): CalendarEvent -> bool {
    (e: CalendarEvent) => e.date == Some(d)
  }

  // --- Tracking a day --------------------------------------------------------------

  const HOLIDAY_COLOR: string := "#DC2626"

  /** A legend item that makes a day free: the holiday red, or a label that
      mentions "festivo" or "inicio" in any letter case. */
  predicate MarksHoliday(item: LegendItem) {
    item.color == HOLIDAY_COLOR
    || Contains(ToLower(item.labelText), "festivo")
    || Contains(ToLower(item.labelText), "inicio")
  }

  /** The event refers to a legend item that marks a holiday. */
  predicate IsHolidayEvent(e: CalendarEvent, items: seq<LegendItem>) {
    var item := FindLegend(items, e.legendItemId);
    item.Some? && MarksHoliday(item.value)
  }

  /** `dayEvents.some(...)` */
  predicate AnyHolidayEvent(dayEvents: seq<CalendarEvent>, items: seq<LegendItem>) {
    dayEvents != [] && (IsHolidayEvent(dayEvents[0], items) || AnyHolidayEvent(dayEvents[1..], items))
  }

  predicate IsHoliday(events: seq<CalendarEvent>, items: seq<LegendItem>, d: Day) {
    AnyHolidayEvent(Filter(events, OnDate(d)), items)
  }

  lemma {:induction false} AnyHolidayEventIff(s: seq<CalendarEvent>, items: seq<LegendItem>)
    ensures AnyHolidayEvent(s, items) <==> exists i :: 0 <= i < |s| && IsHolidayEvent(s[i], items)
  {
    if s != [] {
      AnyHolidayEventIff(s[1..], items);
      if AnyHolidayEvent(s[1..], items) {
        var i :| 0 <= i < |s[1..]| && IsHolidayEvent(s[1..][i], items);
        assert IsHolidayEvent(s[i + 1], items);
      }
      if exists i :: 0 <= i < |s| && IsHolidayEvent(s[i], items) {
        var i :| 0 <= i < |s| && IsHolidayEvent(s[i], items);
        if i > 0 {
          assert IsHolidayEvent(s[1..][i - 1], items);
        }
      }
    }
  }

  /** A day is a holiday exactly when some event on it refers to a legend item
      that marks a holiday. */
  lemma HolidayIff(events: seq<CalendarEvent>, items: seq<LegendItem>, d: Day)
    ensures IsHoliday(events, items, d)
        <==> exists i :: 0 <= i < |events| && events[i].date == Some(d) && IsHolidayEvent(events[i], items)
  {
    var dayEvents := Filter(events, OnDate(d));
    AnyHolidayEventIff(dayEvents, items);
    if exists i :: 0 <= i < |events| && events[i].date == Some(d) && IsHolidayEvent(events[i], items) {
      var i :| 0 <= i < |events| && events[i].date == Some(d) && IsHolidayEvent(events[i], items);
      assert OnDate(d)(events[i]);
      var j :| 0 <= j < |dayEvents| && dayEvents[j] == events[i];
      assert IsHolidayEvent(dayEvents[j], items);
    }
    if IsHoliday(events, items, d) {
      var j :| 0 <= j < |dayEvents| && IsHolidayEvent(dayEvents[j], items);
      var e := dayEvents[j];
      assert e in events && e.date == Some(d);
      var i :| 0 <= i < |events| && events[i] == e;
    }
  }

  /** The hours the timetable plans for a weekday. */
  function PlannedHoursOn(schedule: seq<ScheduleSlot>, weekday: int): nat {
    Sum(Filter(schedule, SlotOnWeekday(weekday)), SlotHours)
  }

  /** The hours logged on a day: its class hours plus its exams, each exam one
      hour when it has no duration. */
  function LoggedHoursOn(logs: seq<ClassLog>, exams: seq<Exam>, d: Day): nat {
    Sum(Filter(logs, LogOnDate(d)), LogHours) + Sum(Filter(exams, ExamOnDate(d)), ExamHours)
  }

  datatype Tracking = Free | Done | PartlyDone | Missing

  /** What `getDayStatus` returns; `logs` is there only for class days. */
  datatype DayStatus = DayStatus(status: Tracking, planned: nat, logged: nat, logs: Option<seq<ClassLog>>)

  /** `getDayStatus`: weekends, holidays and days without planned hours are
      free; on a class day the logged hours against the planned ones make the
      day done, partial or missing. */
  function GetDayStatus(
    d: Day, events: seq<CalendarEvent>, items: seq<LegendItem>, schedule: seq<ScheduleSlot>,
    logs: seq<ClassLog>, exams: seq<Exam>): (r: DayStatus)
    ensures IsoWeekday(d) > 5 || IsHoliday(events, items, d) ==> r == DayStatus(Free, 0, 0, None)
    ensures r.status == Free <==>
      IsoWeekday(d) > 5 || IsHoliday(events, items, d) || PlannedHoursOn(schedule, IsoWeekday(d)) == 0
    ensures r.status == Free ==> r == DayStatus(Free, 0, 0, None)
    ensures r.status != Free ==>
      r.planned == PlannedHoursOn(schedule, IsoWeekday(d)) > 0
      && r.logged == LoggedHoursOn(logs, exams, d)
      && r.logs == Some(Filter(logs, LogOnDate(d)))
    ensures r.status == Done <==> r.status != Free && r.logged >= r.planned
    ensures r.status == PartlyDone <==> r.status != Free && 0 < r.logged < r.planned
    ensures r.status == Missing <==> r.status != Free && r.logged == 0
  {
    var dayOfWeek := IsoWeekday(d);
    if dayOfWeek > 5 || IsHoliday(events, items, d) then DayStatus(Free, 0, 0, None)
    else
      var plannedHours := PlannedHoursOn(schedule, dayOfWeek);
      if plannedHours == 0 then DayStatus(Free, 0, 0, None)
      else
        var loggedHours := LoggedHoursOn(logs, exams, d);
        var status := if loggedHours >= plannedHours then Done else if loggedHours > 0 then PartlyDone else Missing;
        DayStatus(status, plannedHours, loggedHours, Some(Filter(logs, LogOnDate(d))))
  }

  function Rank(t: Tracking): nat {
    match t
    case Free => 0
    case Missing => 1
    case PartlyDone => 2
    case Done => 3
  }

  /** Recording more classes or exams never moves a class day down from done
      to partial or from partial to missing, and never frees it. */
  lemma MoreLogsNeverDowngrade(
    d: Day, events: seq<CalendarEvent>, items: seq<LegendItem>, schedule: seq<ScheduleSlot>,
    logs: seq<ClassLog>, exams: seq<Exam>, moreLogs: seq<ClassLog>, moreExams: seq<Exam>)
    ensures var before := GetDayStatus(d, events, items, schedule, logs, exams);
      var after := GetDayStatus(d, events, items, schedule, logs + moreLogs, exams + moreExams);
      (before.status == Free <==> after.status == Free) && Rank(before.status) <= Rank(after.status)
  {
    FilterAppend(logs, moreLogs, LogOnDate(d));
    FilterAppend(exams, moreExams, ExamOnDate(d));
    SumAppend(Filter(logs, LogOnDate(d)), Filter(moreLogs, LogOnDate(d)), LogHours);
    SumAppend(Filter(exams, ExamOnDate(d)), Filter(moreExams, ExamOnDate(d)), ExamHours);
  }

  /** The year `new Date(year, month, day)` reads: 0 to 99 stand for 1900 to 1999. */
  function FullYear(year: int): int {
    if 0 <= year <= 99 then 1900 + year else year
  }

  /** `new Date(year, month, 1)` as a day number, with a month index from 0;
      an index outside 0-11 rolls over into other years. */
  function FirstOfMonth(year: int, month: int): Day {
    DaysFromCivil(FullYear(year) + month / 12, month % 12 + 1, 1)
  }

  /** The date of that day is the first of the month, in the year the month
      index rolls over into. */
  lemma FirstOfMonthDate(year: int, month: int)
    ensures CivilFromDays(FirstOfMonth(year, month)) == Civil(FullYear(year) + month / 12, month % 12 + 1, 1)
  {
    var y, m := FullYear(year) + month / 12, month % 12 + 1;
    assert FirstOfMonth(year, month) == DaysFromCivil(y, m, 1);
    CivilOfDaysFromCivil(y, m, 1);
  }

  /** `getDaysInMonth(year, month)`: the date of day 0 of the next month,
      which is the last day of this one. */
  function DaysInMonth(year: int, month: int): (n: int)
    ensures n == MonthLength(FullYear(year) + month / 12, month % 12 + 1)
  {
    var y, m := FullYear(year) + month / 12, month % 12 + 1;
    LastOfMonth(year, month);
    CivilOfDaysFromCivil(y, m, MonthLength(y, m));
    CivilFromDays(FirstOfMonth(year, month + 1) - 1).day
  }

  /** The day before the first of the next month index is the last day of
      this month. */
  lemma LastOfMonth(year: int, month: int)
    ensures var y, m := FullYear(year) + month / 12, month % 12 + 1;
      FirstOfMonth(year, month + 1) - 1 == DaysFromCivil(y, m, MonthLength(y, m))
  {
    var y, m := FullYear(year) + month / 12, month % 12 + 1;
    FirstOfMonthStep(year, month);
    DayOfMonthOffset(y, m, MonthLength(y, m));
  }

  /** The first of the next month index is the first of this one plus the
      length of this month. */
  lemma FirstOfMonthStep(year: int, month: int)
    ensures var y, m := FullYear(year) + month / 12, month % 12 + 1;
      FirstOfMonth(year, month + 1) == FirstOfMonth(year, month) + MonthLength(y, m)
  {
    var y, m := FullYear(year) + month / 12, month % 12 + 1;
    var first := FirstOfMonth(year, month);
    assert first == DaysFromCivil(y, m, 1);
    var len := MonthLength(y, m);
    MonthStep(y, m);
    if m == 12 {
      assert DaysFromCivil(y + 1, 1, 1) == first + len;
      assert (month + 1) / 12 == month / 12 + 1 && (month + 1) % 12 + 1 == 1;
      assert FirstOfMonth(year, month + 1) == DaysFromCivil(y + 1, 1, 1);
    } else {
      assert DaysFromCivil(y, m + 1, 1) == first + len;
      assert (month + 1) / 12 == month / 12 && (month + 1) % 12 + 1 == m + 1;
      assert FirstOfMonth(year, month + 1) == DaysFromCivil(y, m + 1, 1);
    }
  }

  /** The column of a day in a week that starts on Monday (0) and ends on
      Sunday (6). */
  function Column(d: Day): (c: int)
    ensures 0 <= c <= 6
    ensures JsWeekday(d - c) == 1
  {
    var day := JsWeekday(d);
    WeekdayBack(d, if day == 0 then 6 else day - 1);
    if day == 0 then 6 else day - 1
  }

  /** Moving `k` days on moves the column `k` places on, around the week. */
  lemma ColumnShift(d: Day, k: int)
    ensures Column(d + k) == (Column(d) + k) % 7
  {
  }

  /** `getFirstDayOfMonth(year, month)` with a month index from 0: the column
      of the month's first day, that is, how many days after a Monday the
      month begins. */
  function FirstDayOfMonth(year: int, month: int): (c: int)
    ensures 0 <= c <= 6
    ensures JsWeekday(FirstOfMonth(year, month) - c) == 1
  {
    Column(FirstOfMonth(year, month))
  }

  /** Each month's first column follows from the previous month's by the
      length of that month, the rule the calendar grid lays months out by. */
  lemma FirstDayOfMonthStep(year: int, month: int)
    ensures FirstDayOfMonth(year, month + 1) == (FirstDayOfMonth(year, month) + DaysInMonth(year, month)) % 7
  {
    FirstOfMonthStep(year, month);
    ColumnShift(FirstOfMonth(year, month), DaysInMonth(year, month));
  }

  /** Two-digit years are years of the twentieth century. */
  lemma TwoDigitYears(year: int, month: int)
    requires 0 <= year <= 99
    ensures FirstDayOfMonth(year, month) == FirstDayOfMonth(1900 + year, month)
    ensures DaysInMonth(year, month) == DaysInMonth(1900 + year, month)
  {
    assert FullYear(year) == FullYear(1900 + year) == 1900 + year;
    assert FirstOfMonth(year, month) == FirstOfMonth(1900 + year, month);
  }

  /** February has 29 days in 2024 and 2000 and 28 in 2025 and 1900. */
  lemma DaysInFebruary()
    ensures DaysInMonth(2024, 1) == 29 && DaysInMonth(2000, 1) == 29
    ensures DaysInMonth(2025, 1) == 28 && DaysInMonth(1900, 1) == 28
  {
    assert LeapYear(2024) && LeapYear(2000) && !LeapYear(2025) && !LeapYear(1900);
    FebruaryOf(2024);
    FebruaryOf(2000);
    FebruaryOf(2025);
    FebruaryOf(1900);
  }

  /** Month index 1 of a four-digit year is its February. */
  lemma FebruaryOf(year: int)
    requires year > 99
    ensures DaysInMonth(year, 1) == if LeapYear(year) then 29 else 28
  {
    assert FullYear(year) + 1 / 12 == year && 1 % 12 + 1 == 2;
  }

  /** September 2025 starts on a Monday. */
  lemma FirstDayOfMonthGolden()
    ensures FirstDayOfMonth(2025, 8) == 0
  {
    assert 8 / 12 == 0 && 8 % 12 + 1 == 9;
    assert MonthStart(6) == 184 && 2025 / 400 == 5;
    assert FirstOfMonth(2025, 8) == 20332;
    assert JsWeekday(20332) == 1;
  }

  /** Month 13 of 2025 is February 2026, which starts on a Sunday. */
  lemma FirstDayOfMonthRollsOver()
    ensures FirstDayOfMonth(2025, 13) == 6
  {
    assert 13 / 12 == 1 && 13 % 12 + 1 == 2;
    assert MonthStart(11) == 337 && 2025 / 400 == 5;
    assert FirstOfMonth(2025, 13) == 20485;
    assert JsWeekday(20485) == 0;
  }

  // --- Legend markers --------------------------------------------------------------

  /** An event that marks day `d` with legend item `legendId`. */
  predicate IsMarker(e: CalendarEvent, d: Day, legendId: Id) {
    e.date == Some(d) && e.legendItemId == Some(legendId)
  }

  /** `calendarEvents.find(...)` for a marker: the index of the first one. */
  function FindMarker(events: seq<CalendarEvent>, d: Day, legendId: Id): (r: Option<nat>)
    ensures r.Some? ==> r.value < |events| && IsMarker(events[r.value], d, legendId)
                        && forall j :: 0 <= j < r.value ==> !IsMarker(events[j], d, legendId)
    ensures r.None? ==> forall j :: 0 <= j < |events| ==> !IsMarker(events[j], d, legendId)
  {
    if events == [] then None
    else if IsMarker(events[0], d, legendId) then Some(0)
    else
      var rest := FindMarker(events[1..], d, legendId);
      if rest.Some? then Some(rest.value + 1) else None
  }

  /** The test "has an id other than `id`". */
  function NotId(id: Id): CalendarEvent -> bool {
    (e: CalendarEvent) => e.id != id
  }

  function NewMarker(d: Day, legendId: Id, newId: Id): CalendarEvent {
    CalendarEvent(newId, Some(d), None, None, None, Some(legendId), None, None)
  }

  /** `toggleEventOnDate`: nothing while the calendar is locked; otherwise an
      existing marker of that legend item on that day is removed (with every
      event sharing its id), or a new one is appended. */
  function ToggleEventOnDate(events: seq<CalendarEvent>, locked: bool, d: Day, legendId: Id, newId: Id): (r: seq<CalendarEvent>)
    ensures locked ==> r == events
    ensures !locked && FindMarker(events, d, legendId).None? ==>
      |r| == |events| + 1 && r[..|events|] == events && IsMarker(r[|events|], d, legendId)
    ensures !locked && FindMarker(events, d, legendId).Some? ==>
      |r| < |events| && forall i :: 0 <= i < |r| ==> r[i].id != events[FindMarker(events, d, legendId).value].id
  {
    if locked then events
    else
      var existing := FindMarker(events, d, legendId);
      if existing.Some? then
        FilterShorter(events, existing.value, NotId(events[existing.value].id));
        Filter(events, NotId(events[existing.value].id))
      else events + [NewMarker(d, legendId, newId)]
  }

  /** With unique ids, toggling a marked day removes exactly that marker and
      keeps every other event in order. */
  lemma ToggleRemovesMarker(events: seq<CalendarEvent>, d: Day, legendId: Id, newId: Id)
    requires FindMarker(events, d, legendId).Some?
    requires forall i, j :: 0 <= i < j < |events| ==> events[i].id != events[j].id
    ensures var k := FindMarker(events, d, legendId).value;
      ToggleEventOnDate(events, false, d, legendId, newId) == events[..k] + events[k + 1..]
  {
    var k := FindMarker(events, d, legendId).value;
    FilterRemovesOne(events, k, NotId(events[k].id));
  }

  /** Toggling an unmarked day on and then off again gives the events back,
      whatever id the new marker got, as long as no other event has it. */
  lemma ToggleTwiceRestores(events: seq<CalendarEvent>, d: Day, legendId: Id, newId: Id, otherId: Id)
    requires FindMarker(events, d, legendId).None?
    requires forall i :: 0 <= i < |events| ==> events[i].id != newId
    ensures ToggleEventOnDate(ToggleEventOnDate(events, false, d, legendId, newId), false, d, legendId, otherId) == events
  {
    var once := events + [NewMarker(d, legendId, newId)];
    assert ToggleEventOnDate(events, false, d, legendId, newId) == once;
    FindAppendedMarker(events, NewMarker(d, legendId, newId), d, legendId);
    FilterRemovesOne(once, |events|, NotId(newId));
    assert once[..|events|] == events && once[|events| + 1..] == [];
  }

  /** A marker appended to a list without one is found at its end. */
  lemma {:induction false} FindAppendedMarker(events: seq<CalendarEvent>, m: CalendarEvent, d: Day, legendId: Id)
    requires FindMarker(events, d, legendId).None? && IsMarker(m, d, legendId)
    ensures FindMarker(events + [m], d, legendId) == Some(|events|)
  {
    if events == [] {
      assert events + [m] == [m];
    } else {
      assert (events + [m])[0] == events[0];
      assert (events + [m])[1..] == events[1..] + [m];
      FindAppendedMarker(events[1..], m, d, legendId);
    }
  }

  /** `handleDeleteLegendItem`: the item goes, and so does every event that
      refers to it; all other items and events are kept in order. */
  function DeleteLegendItem(items: seq<LegendItem>, events: seq<CalendarEvent>, id: Id): (r: (seq<LegendItem>, seq<CalendarEvent>))
    ensures forall i :: 0 <= i < |r.0| ==> r.0[i].id != id
    ensures forall i :: 0 <= i < |items| && items[i].id != id ==> items[i] in r.0
    ensures forall i :: 0 <= i < |r.1| ==> r.1[i].legendItemId != Some(id)
    ensures forall i :: 0 <= i < |events| && events[i].legendItemId != Some(id) ==> events[i] in r.1
  {
    (Filter(items, ItemNotId(id)), Filter(events, NotOfItem(id)))
  }

  function ItemNotId(id: Id): LegendItem -> bool {
    (i: LegendItem) => i.id != id
  }

  function NotOfItem(id: Id): CalendarEvent -> bool {
    (e: CalendarEvent) => e.legendItemId != Some(id)
  }

  /** Deleting a legend item nobody refers to leaves the events as they are. */
  lemma DeleteUnusedLegendItem(items: seq<LegendItem>, events: seq<CalendarEvent>, id: Id)
    requires forall i :: 0 <= i < |events| ==> events[i].legendItemId != Some(id)
    ensures DeleteLegendItem(items, events, id).1 == events
  {
    FilterAll(events, NotOfItem(id));
  }

  /** The events are cleaned one by one: over two lists of events the result
      is the two results joined. */
  lemma DeleteLegendItemEventsAppend(items: seq<LegendItem>, a: seq<CalendarEvent>, b: seq<CalendarEvent>, id: Id)
    ensures DeleteLegendItem(items, a + b, id).1 == DeleteLegendItem(items, a, id).1 + DeleteLegendItem(items, b, id).1
  {
    FilterAppend(a, b, NotOfItem(id));
  }

  /** A single event goes exactly when it refers to the deleted item. */
  lemma DeleteLegendItemOneEvent(items: seq<LegendItem>, e: CalendarEvent, id: Id)
    ensures e.legendItemId == Some(id) ==> DeleteLegendItem(items, [e], id).1 == []
    ensures e.legendItemId != Some(id) ==> DeleteLegendItem(items, [e], id).1 == [e]
  {
    assert [e][0] == e;
  }

  /** With unique ids, deleting the item at index `k` removes exactly it from
      the legend. */
  lemma DeleteLegendItemRemovesOne(items: seq<LegendItem>, events: seq<CalendarEvent>, k: nat)
    requires k < |items|
    requires forall i, j :: 0 <= i < j < |items| ==> items[i].id != items[j].id
    ensures DeleteLegendItem(items, events, items[k].id).0 == items[..k] + items[k + 1..]
  {
    FilterRemovesOne(items, k, ItemNotId(items[k].id));
  }

  // --- Creating events -------------------------------------------------------------

  /** A logistics step proposed for a service, editable before saving. */
  datatype AutoReminder = AutoReminder(id: Id, title: string, date: Option<Day>, kind: EventType)

  /** The new-event form. */
  datatype EventForm = EventForm(
    title: string, kind: EventType, date: Option<Day>, description: string,
    reminders: seq<Option<Day>>, autoReminders: seq<AutoReminder>)

  /** The form as it starts and as it is left after an event is created. */
  const EmptyForm: EventForm := EventForm("", Service, None, "", [], [])

  /** `handleDateChange`: the date is set, and for a service with a date the
      three logistics steps are proposed, dated like the events
      `generateLogisticEvents` would create. */
  function DateChange(form: EventForm, date: Option<Day>, now: Instant): (r: EventForm)
    ensures r.date == date
    ensures form.kind == Service && date.Some? ==>
      |r.autoReminders| == 3
      && r.autoReminders[0].date == Some(PreviousMonday(date.value))
      && r.autoReminders[1].date == Some(FridayTwoWeeksBefore(date.value))
      && r.autoReminders[2].date == Some(DaysBefore24(date.value))
      && r.autoReminders[0].title == "🛒 Hacer Pedido" && r.autoReminders[1].title == "📦 Cerrar Stock"
      && r.autoReminders[2].title == "📝 Crear Menú"
    ensures !(form.kind == Service && date.Some?) ==> r.autoReminders == form.autoReminders
    ensures r.(date := form.date, autoReminders := form.autoReminders) == form
  {
    var form' := form.(date := date);
    if form.kind == Service && date.Some? then
      var d := date.value;
      form'.(autoReminders := [
        AutoReminder("auto-order-" + IntToString(now), "🛒 Hacer Pedido", Some(PreviousMonday(d)), Order),
        AutoReminder("auto-stock-" + IntToString(now), "📦 Cerrar Stock", Some(FridayTwoWeeksBefore(d)), Order),
        AutoReminder("auto-menu-" + IntToString(now), "📝 Crear Menú", Some(DaysBefore24(d)), Menu)])
    else form'
  }

  /** The proposed steps carry the dates and types of the fallback events. */
  lemma DateChangeMatchesLogistics(form: EventForm, d: Day, now: Instant, service: CalendarEvent)
    requires form.kind == Service && service.date == Some(d)
    ensures var rs := DateChange(form, Some(d), now).autoReminders;
      var es := LogisticEvents(service);
      |rs| == |es| == 3
      && rs[0].date == es[0].date && Some(rs[0].kind) == es[0].kind
      && rs[1].date == es[1].date && Some(rs[1].kind) == es[1].kind
      && rs[2].date == es[2].date && Some(rs[2].kind) == es[2].kind
  {
  }

  /** `updateAutoReminderTitle` */
  function UpdateAutoReminderTitle(rs: seq<AutoReminder>, index: nat, title: string): (r: seq<AutoReminder>)
    requires index < |rs|
    ensures |r| == |rs| && r[index].title == title && r[index].(title := rs[index].title) == rs[index]
    ensures forall i :: 0 <= i < |rs| && i != index ==> r[i] == rs[i]
  {
    rs[index := rs[index].(title := title)]
  }

  /** `updateAutoReminderDate` */
  function UpdateAutoReminderDate(rs: seq<AutoReminder>, index: nat, date: Option<Day>): (r: seq<AutoReminder>)
    requires index < |rs|
    ensures |r| == |rs| && r[index].date == date && r[index].(date := rs[index].date) == rs[index]
    ensures forall i :: 0 <= i < |rs| && i != index ==> r[i] == rs[i]
  {
    rs[index := rs[index].(date := date)]
  }

  /** `removeAutoReminder` */
  function RemoveAutoReminder(rs: seq<AutoReminder>, index: nat): (r: seq<AutoReminder>)
    ensures index < |rs| ==> |r| == |rs| - 1 && r == rs[..index] + rs[index + 1..]
    ensures index >= |rs| ==> r == rs
  {
    RemoveAt(rs, index)
  }

  /** `addAutoReminder`: a note dated on the event's date. */
  function AddAutoReminder(rs: seq<AutoReminder>, form: EventForm, now: Instant): (r: seq<AutoReminder>)
    ensures |r| == |rs| + 1 && r[..|rs|] == rs && r[|rs|].date == form.date && r[|rs|].kind == Note
    ensures r[|rs|].id == "manual-" + IntToString(now) && r[|rs|].title == "📌 Nuevo Aviso"
  {
    rs + [AutoReminder("manual-" + IntToString(now), "📌 Nuevo Aviso", form.date, Note)]
  }

  /** Setting, removing and adding a manual reminder date. */
  function SetManualReminder(ds: seq<Option<Day>>, index: nat, date: Option<Day>): (r: seq<Option<Day>>)
    requires index < |ds|
    ensures |r| == |ds| && r[index] == date
    ensures forall i :: 0 <= i < |ds| && i != index ==> r[i] == ds[i]
  {
    ds[index := date]
  }

  function RemoveManualReminder(ds: seq<Option<Day>>, index: nat): (r: seq<Option<Day>>)
    ensures index < |ds| ==> r == ds[..index] + ds[index + 1..]
    ensures index >= |ds| ==> r == ds
  {
    RemoveAt(ds, index)
  }

  function AddManualReminder(ds: seq<Option<Day>>): (r: seq<Option<Day>>)
    ensures |r| == |ds| + 1 && r[..|ds|] == ds && r[|ds|].None?
  {
    ds + [None]
  }

  /** The events made from the edited logistics steps, linked to the main
      event; `autoId(i)` is the fresh id of the i-th one. */
  function AutoEvents(rs: seq<AutoReminder>, title: string, mainId: Id, autoId: nat -> Id): (r: seq<CalendarEvent>)
    ensures |r| == |rs|
    ensures forall i :: 0 <= i < |rs| ==>
      r[i].date == rs[i].date && r[i].kind == Some(rs[i].kind)
      && r[i].linkedEventId == Some(mainId) && r[i].completed == Some(false)
    ensures forall i :: 0 <= i < |rs| ==>
      r[i].id == autoId(i) && r[i].title == Some(rs[i].title + " - " + title)
      && r[i].description == Some("Logística para: " + title) && r[i].legendItemId.None?
  {
    seq(|rs|, i requires 0 <= i < |rs| =>
      CalendarEvent(autoId(i), rs[i].date, Some(rs[i].title + " - " + title),
                    Some("Logística para: " + title), Some(rs[i].kind), None, Some(mainId), Some(false)))
  }

  /** The notes made from the manual reminder dates, linked to the main
      event. */
  function ReminderEvents(ds: seq<Option<Day>>, title: string, eventDate: Day, mainId: Id): (r: seq<CalendarEvent>)
    ensures |r| == |ds|
    ensures forall i :: 0 <= i < |ds| ==>
      r[i].id == "reminder-" + mainId + "-" + NatToString(i) && r[i].date == ds[i] && r[i].kind == Some(Note)
      && r[i].linkedEventId == Some(mainId) && r[i].completed == Some(false)
    ensures forall i :: 0 <= i < |ds| ==>
      r[i].title == Some("📌 Recordatorio: " + title)
      && r[i].description == Some("Preparación para evento del " + SpanishDate(eventDate)) && r[i].legendItemId.None?
  {
    seq(|ds|, i requires 0 <= i < |ds| =>
      CalendarEvent("reminder-" + mainId + "-" + NatToString(i), ds[i], Some("📌 Recordatorio: " + title),
                    Some("Preparación para evento del " + SpanishDate(eventDate)), Some(Note), None,
                    Some(mainId), Some(false)))
  }

  /** The event the form describes: the title and the description trimmed,
      an empty description left out, not completed and linked to nothing. */
  function MainEvent(form: EventForm, id: Id): (e: CalendarEvent)
    ensures e.id == id && e.date == form.date && e.title == Some(Trim(form.title))
    ensures e.kind == Some(form.kind) && e.legendItemId.None? && e.linkedEventId.None? && e.completed == Some(false)
    ensures e.description.None? <==> IsBlank(form.description)
    ensures e.description.Some? ==> e.description.value == Trim(form.description) && e.description.value != ""
  {
    CalendarEvent(
      id, form.date, Some(Trim(form.title)),
      if IsBlank(form.description) then None else Some(Trim(form.description)),
      Some(form.kind), None, None, Some(false))
  }

  /** The logistics events of a new event: none unless it is a service; the
      edited steps when there are any; otherwise the generated ones. */
  function LogisticsFor(form: EventForm, main: CalendarEvent, autoId: nat -> Id): (r: seq<CalendarEvent>)
    requires main.date.Some?
    ensures |r| == (if form.kind != Service then 0 else if |form.autoReminders| > 0 then |form.autoReminders| else 3)
    ensures AllLinked(r, main.id)
  {
    if form.kind == Service && |form.autoReminders| > 0 then AutoEvents(form.autoReminders, form.title, main.id, autoId)
    else if form.kind == Service then LogisticEvents(main)
    else []
  }

  /** Every event is linked to `id` and not completed. */
  predicate AllLinked(es: seq<CalendarEvent>, id: Id) {
    forall i :: 0 <= i < |es| ==> es[i].linkedEventId == Some(id) && es[i].completed == Some(false)
  }

  lemma AllLinkedAppend(a: seq<CalendarEvent>, b: seq<CalendarEvent>, id: Id)
    requires AllLinked(a, id) && AllLinked(b, id)
    ensures AllLinked(a + b, id)
  {
  }

  /** `handleCreateEvent`: without a title or a date nothing happens.
      Otherwise the main event, then the logistics events of a service (the
      edited steps, or the generated ones when there are none), then one note
      per manual reminder are appended, each of them linked to the main event,
      and the form is cleared. */
  method CreateEvent(form: EventForm, events: seq<CalendarEvent>, mainEventId: Id, autoId: nat -> Id)
    returns (newEvents: seq<CalendarEvent>, newForm: EventForm)
    ensures IsBlank(form.title) || form.date.None? ==> newEvents == events && newForm == form
    ensures !IsBlank(form.title) && form.date.Some? ==>
      var main := MainEvent(form, mainEventId);
      newForm == EmptyForm
      && newEvents == events + [main] + LogisticsFor(form, main, autoId)
                      + ReminderEvents(form.reminders, form.title, form.date.value, mainEventId)
      && |newEvents| > |events|
      && AllLinked(newEvents[|events| + 1..], mainEventId)
  {
    if IsBlank(form.title) || form.date.None? {
      return events, form;
    }
    var mainEvent := MainEvent(form, mainEventId);
    var eventsToAdd := [mainEvent];
    if form.kind == Service {
      if |form.autoReminders| > 0 {
        eventsToAdd := eventsToAdd + AutoEvents(form.autoReminders, form.title, mainEventId, autoId);
      } else {
        var logisticEvents := GenerateLogisticEvents(mainEvent);
        eventsToAdd := eventsToAdd + logisticEvents;
      }
    }
    ghost var logistics := LogisticsFor(form, mainEvent, autoId);
    assert eventsToAdd == [mainEvent] + logistics;
    var reminders := ReminderEvents(form.reminders, form.title, form.date.value, mainEventId);
    if |form.reminders| > 0 {
      eventsToAdd := eventsToAdd + reminders;
    } else {
      assert reminders == [] && eventsToAdd + reminders == eventsToAdd;
    }
    newEvents := events + eventsToAdd;
    newForm := EmptyForm;
    LinkedTail(events, mainEvent, logistics, reminders, mainEventId);
  }

  /** What `CreateEvent` appends after the main event is linked to it. */
  lemma LinkedTail(events: seq<CalendarEvent>, main: CalendarEvent, logistics: seq<CalendarEvent>,
                   reminders: seq<CalendarEvent>, id: Id)
    requires AllLinked(logistics, id) && AllLinked(reminders, id)
    ensures var all := events + ([main] + logistics + reminders);
      all == events + [main] + logistics + reminders && |all| > |events|
      && AllLinked(all[|events| + 1..], id)
  {
    AppendLayout(events, main, logistics, reminders);
    AllLinkedAppend(logistics, reminders, id);
  }

  /** The layout of what `CreateEvent` appends: the main event, its logistics
      events (the generated ones for a service without edited steps) and its
      reminder notes, in that order. */
  lemma CreatedLayout(form: EventForm, events: seq<CalendarEvent>, mainEventId: Id, autoId: nat -> Id)
    requires !IsBlank(form.title) && form.date.Some?
    ensures var main := MainEvent(form, mainEventId);
      var logistics := LogisticsFor(form, main, autoId);
      var all := events + [main] + logistics + ReminderEvents(form.reminders, form.title, form.date.value, mainEventId);
      var n := |events|;
      |all| == n + 1 + |logistics| + |form.reminders|
      && all[..n] == events && all[n] == main
      && (form.kind == Service && form.autoReminders == [] ==> all[n + 1..n + 4] == LogisticEvents(main))
      && (form.kind != Service ==> all[n + 1..] == ReminderEvents(form.reminders, form.title, form.date.value, mainEventId))
  {
    var main := MainEvent(form, mainEventId);
    var logistics := LogisticsFor(form, main, autoId);
    var rs := ReminderEvents(form.reminders, form.title, form.date.value, mainEventId);
    AppendLayout(events, main, logistics, rs);
  }

  // --- iCalendar export --------------------------------------------------------------

  const ICS_HEADER: string := "BEGIN:VCALENDAR\nVERSION:2.0\nPRODID:-//CuliPlan//NONSGML v1.0//EN\n"
  const ICS_FOOTER: string := "END:VCALENDAR"

  /** `date.replace(/-/g, '')`; an event without a date gives the empty
      string. */
  function IcsDate(date: Option<Day>): string {
    match date
    case None => ""
    case Some(d) => RemoveChar(IsoDate(d), '-')
  }

  /** `course?.name || ''` */
  function CourseName(courses: seq<Course>, id: Id): string {
    if courses == [] then ""
    else if courses[0].id == id then courses[0].name
    else CourseName(courses[1..], id)
  }

  const VEVENT_BEGIN: string := "BEGIN:VEVENT\n"
  const VEVENT_END: string := "END:VEVENT\n"

  function DtStart(date: Option<Day>): string {
    "DTSTART;VALUE=DATE:" + IcsDate(date) + "\n"
  }

  /** A VEVENT block of a calendar: its start date and its other lines. */
  function VEvent(date: Option<Day>, lines: string): string {
    VEVENT_BEGIN + DtStart(date) + lines + VEVENT_END
  }

  function SummaryLine(text: string): string {
    "SUMMARY:" + text + "\n"
  }

  function ExamSummary(exam: Exam, courses: seq<Course>): string {
    SummaryLine("EXAMEN " + exam.kind.Label() + " - " + CourseName(courses, exam.courseId))
  }

  function DescriptionLine(text: string): string {
    "DESCRIPTION:" + text + "\n"
  }

  function LegendBlock(e: CalendarEvent, item: LegendItem): string {
    VEvent(e.date, SummaryLine(item.labelText))
  }

  function ExamBlock(exam: Exam, courses: seq<Course>): string {
    VEvent(Some(exam.date), ExamSummary(exam, courses) + DescriptionLine(exam.topics))
  }

  /** The events that reach the export: those whose legend item exists. */
  function HasLegend(items: seq<LegendItem>): CalendarEvent -> bool {
    (e: CalendarEvent) => FindLegend(items, e.legendItemId).Some?
  }

  /** One block per event with a known legend item, in order. */
  function EventBlocks(events: seq<CalendarEvent>, items: seq<LegendItem>): seq<string> {
    if events == [] then []
    else
      var last := events[|events| - 1];
      var item := FindLegend(items, last.legendItemId);
      EventBlocks(events[..|events| - 1], items) + (if item.Some? then [LegendBlock(last, item.value)] else [])
  }

  /** One block per exam, in order. */
  function ExamBlocks(exams: seq<Exam>, courses: seq<Course>): (r: seq<string>)
    ensures |r| == |exams|
  {
    if exams == [] then [] else ExamBlocks(exams[..|exams| - 1], courses) + [ExamBlock(exams[|exams| - 1], courses)]
  }

  /** The exported calendar text. */
  function Ics(events: seq<CalendarEvent>, items: seq<LegendItem>, exams: seq<Exam>, courses: seq<Course>): string {
    ICS_HEADER + Concat(EventBlocks(events, items)) + Concat(ExamBlocks(exams, courses)) + ICS_FOOTER
  }

  /** The lines `downloadICS` writes for an event with a legend item. */
  method WriteLegendEvent(text: string, event: CalendarEvent, legend: LegendItem) returns (icsContent: string)
    ensures icsContent == text + LegendBlock(event, legend)
  {
    icsContent := text;
    icsContent := icsContent + VEVENT_BEGIN;
    icsContent := icsContent + DtStart(event.date);
    icsContent := icsContent + SummaryLine(legend.labelText);
    icsContent := icsContent + VEVENT_END;
    AppendPieces(text, VEVENT_BEGIN, DtStart(event.date), SummaryLine(legend.labelText), VEVENT_END);
  }

  /** The lines `downloadICS` writes for an exam. */
  method WriteExamEvent(text: string, exam: Exam, courses: seq<Course>) returns (icsContent: string)
    ensures icsContent == text + ExamBlock(exam, courses)
  {
    icsContent := text;
    icsContent := icsContent + VEVENT_BEGIN;
    icsContent := icsContent + DtStart(Some(exam.date));
    icsContent := icsContent + ExamSummary(exam, courses);
    icsContent := icsContent + DescriptionLine(exam.topics);
    icsContent := icsContent + VEVENT_END;
    AppendBlock(text, VEVENT_BEGIN, DtStart(Some(exam.date)), ExamSummary(exam, courses),
                DescriptionLine(exam.topics), VEVENT_END);
  }

  /** The `calendarEvents.forEach` of `downloadICS`: a block for every event
      whose legend item exists, in order. */
  method WriteEventBlocks(text: string, events: seq<CalendarEvent>, items: seq<LegendItem>) returns (icsContent: string)
    ensures icsContent == text + Concat(EventBlocks(events, items))
  {
    icsContent := text;
    var i := 0;
    while i < |events|
      invariant 0 <= i <= |events|
      invariant icsContent == text + Concat(EventBlocks(events[..i], items))
    {
      var event := events[i];
      var legend := FindLegend(items, event.legendItemId);
      assert events[..i + 1][..i] == events[..i];
      if legend.Some? {
        icsContent := WriteLegendEvent(icsContent, event, legend.value);
        ConcatSnoc(EventBlocks(events[..i], items), LegendBlock(event, legend.value));
        AppendAssoc(text, Concat(EventBlocks(events[..i], items)), LegendBlock(event, legend.value));
      } else {
        assert EventBlocks(events[..i + 1], items) == EventBlocks(events[..i], items);
      }
      i := i + 1;
    }
    assert events[..|events|] == events;
  }

  /** The `exams.forEach` of `downloadICS`: a block for every exam, in
      order. */
  method WriteExamBlocks(text: string, exams: seq<Exam>, courses: seq<Course>) returns (icsContent: string)
    ensures icsContent == text + Concat(ExamBlocks(exams, courses))
  {
    icsContent := text;
    var j := 0;
    while j < |exams|
      invariant 0 <= j <= |exams|
      invariant icsContent == text + Concat(ExamBlocks(exams[..j], courses))
    {
      var exam := exams[j];
      icsContent := WriteExamEvent(icsContent, exam, courses);
      ExamBlocksStep(text, exams, j, courses);
      j := j + 1;
    }
    assert exams[..|exams|] == exams;
  }

  /** Writing the block of exam `j` extends the text written for the exams
      before it to the text for the exams up to `j`. */
  lemma ExamBlocksStep(text: string, exams: seq<Exam>, j: nat, courses: seq<Course>)
    requires j < |exams|
    ensures text + Concat(ExamBlocks(exams[..j + 1], courses))
      == text + Concat(ExamBlocks(exams[..j], courses)) + ExamBlock(exams[j], courses)
  {
    assert exams[..j + 1][..j] == exams[..j];
    assert ExamBlocks(exams[..j + 1], courses) == ExamBlocks(exams[..j], courses) + [ExamBlock(exams[j], courses)];
    ConcatSnoc(ExamBlocks(exams[..j], courses), ExamBlock(exams[j], courses));
    AppendAssoc(text, Concat(ExamBlocks(exams[..j], courses)), ExamBlock(exams[j], courses));
  }

  /** `downloadICS`: the header, a block per event with a known legend item, a
      block per exam and the footer. */
  method DownloadIcs(events: seq<CalendarEvent>, items: seq<LegendItem>, exams: seq<Exam>, courses: seq<Course>)
    returns (icsContent: string)
    ensures icsContent == Ics(events, items, exams, courses)
  {
    icsContent := ICS_HEADER;
    icsContent := WriteEventBlocks(icsContent, events, items);
    icsContent := WriteExamBlocks(icsContent, exams, courses);
    icsContent := icsContent + ICS_FOOTER;
  }

  /** There is one event block per event whose legend item exists. */
  lemma {:induction false} EventBlocksCount(events: seq<CalendarEvent>, items: seq<LegendItem>)
    ensures |EventBlocks(events, items)| == |Filter(events, HasLegend(items))|
  {
    if events != [] {
      var init, last := events[..|events| - 1], events[|events| - 1];
      assert events == init + [last];
      EventBlocksCount(init, items);
      FilterAppend(init, [last], HasLegend(items));
    }
  }

  /** The header comes first and the footer last. */
  lemma Framed(header: string, body: string, footer: string)
    ensures var text := header + body + footer;
      header <= text && |text| >= |footer| && text[|text| - |footer|..] == footer
  {
  }

  /** The export starts with the calendar header and ends with
      `END:VCALENDAR`. */
  lemma IcsFraming(events: seq<CalendarEvent>, items: seq<LegendItem>, exams: seq<Exam>, courses: seq<Course>)
    ensures var text := Ics(events, items, exams, courses);
      ICS_HEADER <= text && |text| >= |ICS_FOOTER| && text[|text| - |ICS_FOOTER|..] == ICS_FOOTER
  {
    var body := Concat(EventBlocks(events, items)) + Concat(ExamBlocks(exams, courses));
    Framed(ICS_HEADER, body, ICS_FOOTER);
  }

  /** The export holds as many VEVENT blocks as there are events with a known
      legend item and exams. */
  lemma IcsBlockCount(events: seq<CalendarEvent>, items: seq<LegendItem>, exams: seq<Exam>, courses: seq<Course>)
    ensures |EventBlocks(events, items)| + |ExamBlocks(exams, courses)|
         == |Filter(events, HasLegend(items))| + |exams|
  {
    EventBlocksCount(events, items);
  }

  /** A dated VEVENT of a four-digit year starts with the line
      `DTSTART;VALUE=DATE:YYYYMMDD`, the form of a DATE value in section 3.3.4
      of RFC 5545. */
  lemma VEventDate(d: Day, lines: string)
    requires 0 <= CivilFromDays(d).year <= 9999
    ensures var date := IcsDate(Some(d));
      |date| == 8 && AllDigits(date)
      && VEvent(Some(d), lines) == VEVENT_BEGIN + ("DTSTART;VALUE=DATE:" + date + "\n") + lines + VEVENT_END
  {
    CompactIsoDate(d);
  }

  /** `event.title || 'Evento'`: a missing or empty title reads "Evento". */
  function DisplayTitle(e: CalendarEvent): string {
    if e.title.Some? && e.title.value != "" then e.title.value else "Evento"
  }

  /** The DESCRIPTION line, written only when the event has a non-empty
      description. */
  function DescriptionPart(e: CalendarEvent): string {
    if e.description.Some? && e.description.value != "" then DescriptionLine(e.description.value) else ""
  }

  /** `downloadSingleEventICS`: one event in a calendar of its own, line by
      line: the calendar header, the VEVENT with its start date, its title
      (or "Evento") and, when it has one, its description, then the footer. */
  function SingleEventIcs(e: CalendarEvent): (text: string)
    ensures text == ICS_HEADER + VEvent(e.date, SummaryLine(DisplayTitle(e)) + DescriptionPart(e)) + ICS_FOOTER
    ensures ICS_HEADER <= text && text[|text| - |ICS_FOOTER|..] == ICS_FOOTER
  {
    var body := VEvent(e.date, SummaryLine(DisplayTitle(e)) + DescriptionPart(e));
    Framed(ICS_HEADER, body, ICS_FOOTER);
    ICS_HEADER + body + ICS_FOOTER
  }

  /** A single event without a description is written as the same VEVENT
      block the full export writes for an event whose legend label is the
      event's title. */
  lemma SingleEventIcsAsLegendBlock(e: CalendarEvent, item: LegendItem)
    requires e.description.None? || e.description == Some("")
    requires item.labelText == DisplayTitle(e)
    ensures SingleEventIcs(e) == ICS_HEADER + LegendBlock(e, item) + ICS_FOOTER
  {
    assert DescriptionPart(e) == "";
    assert SummaryLine(DisplayTitle(e)) + "" == SummaryLine(DisplayTitle(e));
  }

  /** Giving an event a non-empty description inserts exactly its
      DESCRIPTION line, just before the event's END line, and changes nothing
      else in the file. */
  lemma SingleEventIcsDescription(e: CalendarEvent, d: string)
    requires d != ""
    ensures var plain := SingleEventIcs(e.(description := None));
      var k := |plain| - |VEVENT_END + ICS_FOOTER|;
      0 <= k && SingleEventIcs(e.(description := Some(d))) == plain[..k] + DescriptionLine(d) + plain[k..]
  {
    var plainEvent, withEvent := e.(description := None), e.(description := Some(d));
    var s := SummaryLine(DisplayTitle(e));
    assert DisplayTitle(plainEvent) == DisplayTitle(withEvent) == DisplayTitle(e);
    assert DescriptionPart(plainEvent) == [] && DescriptionPart(withEvent) == DescriptionLine(d);
    var plain := ICS_HEADER + (VEVENT_BEGIN + DtStart(e.date) + (s + []) + VEVENT_END) + ICS_FOOTER;
    assert SingleEventIcs(plainEvent) == plain;
    assert SingleEventIcs(withEvent)
      == ICS_HEADER + (VEVENT_BEGIN + DtStart(e.date) + (s + DescriptionLine(d)) + VEVENT_END) + ICS_FOOTER;
    InsertLine(ICS_HEADER, VEVENT_BEGIN, DtStart(e.date), s, DescriptionLine(d), VEVENT_END, ICS_FOOTER);
  }

  /** Inserting `x` after the summary of a framed block puts it just before
      the block's last two pieces. */
  lemma InsertLine<T>(h: seq<T>, vb: seq<T>, ds: seq<T>, s: seq<T>, x: seq<T>, ve: seq<T>, f: seq<T>)
    ensures var plain := h + (vb + ds + (s + []) + ve) + f;
      var k := |plain| - |ve + f|;
      0 <= k && h + (vb + ds + (s + x) + ve) + f == plain[..k] + x + plain[k..]
  {
    var head := h + vb + ds + s;
    var plain := h + (vb + ds + (s + []) + ve) + f;
    assert plain == head + (ve + f);
    assert plain[..|head|] == head && plain[|head|..] == ve + f;
    assert h + (vb + ds + (s + x) + ve) + f == head + x + (ve + f);
  }
}
