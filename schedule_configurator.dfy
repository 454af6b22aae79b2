/** The weekly timetable editor: reading `HH:MM` times, placing a slot in
    the 08:00-16:00 grid, and saving or deleting the slot being edited. */
module ScheduleConfigurator {
  import opened Wrappers
  import opened Seqs
  import opened Text
  import opened Numbers
  import opened Types

  const START_HOUR: nat := 8
  const END_HOUR: nat := 16
  /** The minutes the grid shows. */
  const TOTAL_MINUTES: nat := (END_HOUR - START_HOUR) * 60

  // --- Times ---------------------------------------------------------------------------

  /** `Number(s)` on what a time field can hold: the empty string is 0, a
      string of digits its value, anything else is not a number. */
  function NumberOf(s: string): (r: Option<nat>)
    ensures AllDigits(s) <==> r.Some?
    ensures r.Some? ==> r.value == DigitsValue(s)
  {
    if AllDigits(s) then Some(DigitsValue(s)) else None
  }

  /** `timeToMinutes`: the first two `:`-separated fields as hours and
      minutes; a time without a colon, or with a field that is not a number,
      has no value (`NaN`). */
  function TimeToMinutes(time: string): (r: Option<int>)
    ensures ':' !in time ==> r.None?
  {
    if ':' !in time then None
    else
      var h := NumberOf(Before(time, ':'));
      var rest := After(time, ':');
      var m := NumberOf(Before(rest, ':'));
      if h.Some? && m.Some? then Some(h.value * 60 + m.value) else None
  }

  /** `HH:MM` written with two-digit fields. */
  function FormatTime(h: nat, m: nat): string {
    ZeroPad(h, 2) + ":" + ZeroPad(m, 2)
  }

  /** Reading a written time gives back its minutes since midnight. */
  lemma TimeToMinutesOfFormat(h: nat, m: nat)
    ensures TimeToMinutes(FormatTime(h, m)) == Some(h * 60 + m)
  {
    var hh, mm := ZeroPad(h, 2), ZeroPad(m, 2);
    assert ':' !in hh;
    assert ':' !in mm;
    SplitAtFirst(hh, ':', mm);
    assert FormatTime(h, m) == hh + [':'] + mm;
    assert Before(mm, ':') == mm by {
      BeforeAbsent(mm, ':');
    }
    DigitsValueOfZeroPad(h, 2);
    DigitsValueOfZeroPad(m, 2);
  }

  lemma {:induction false} BeforeAbsent(s: string, c: char)
    requires c !in s
    ensures Before(s, c) == s
  {
    if s != [] {
      BeforeAbsent(s[1..], c);
    }
  }

  /** The default times of a new slot. */
  lemma DefaultTimes()
    ensures TimeToMinutes("08:00") == Some(480) && TimeToMinutes("09:00") == Some(540)
  {
    OneDigitTime(8, 0);
    OneDigitTime(9, 0);
    assert DigitChar(8) == '8' && DigitChar(9) == '9' && DigitChar(0) == '0';
    TimeToMinutesOfFormat(8, 0);
    TimeToMinutesOfFormat(9, 0);
  }

  lemma OneDigitTime(h: nat, m: nat)
    requires h < 10 && m < 10
    ensures FormatTime(h, m) == ['0', DigitChar(h), ':', '0', DigitChar(m)]
  {
    assert ZeroPad(h, 2) == "0" + [DigitChar(h)] by {
      assert Zeros(1) == "0";
    }
    assert ZeroPad(m, 2) == "0" + [DigitChar(m)] by {
      assert Zeros(1) == "0";
    }
  }

  // --- Placing a slot -------------------------------------------------------------------

  /** Where a slot sits in the day's column, in percent of its height. */
  datatype SlotBox = SlotBox(top: real, height: real)

  /** `getSlotStyle` on the two times once read: the offset from 08:00 and
      the length, as shares of the eight hours shown; the offset is never
      negative and the height never below 2. */
  function SlotStyle(startMin: int, endMin: int): (b: SlotBox)
    ensures b.top == MaxReal(0.0, (startMin - START_HOUR * 60) as real / TOTAL_MINUTES as real * 100.0)
    ensures b.height == MaxReal(2.0, (endMin - startMin) as real / TOTAL_MINUTES as real * 100.0)
    ensures b.top >= 0.0 && b.height >= 2.0
    ensures b.top == 0.0 <==> startMin <= START_HOUR * 60
    ensures START_HOUR * 60 <= startMin ==> b.top == (startMin - START_HOUR * 60) as real / TOTAL_MINUTES as real * 100.0
  {
    var startOfDayMin := START_HOUR * 60;
    var top := (startMin - startOfDayMin) as real / TOTAL_MINUTES as real * 100.0;
    var height := (endMin - startMin) as real / TOTAL_MINUTES as real * 100.0;
    SlotBox(if top >= 0.0 then top else 0.0, if height >= 2.0 then height else 2.0)
  }

  /** A slot inside the grid, long enough not to be stretched to the least
      height, ends by the bottom of the column. */
  lemma SlotFitsGrid(startMin: int, endMin: int)
    requires START_HOUR * 60 <= startMin <= endMin <= END_HOUR * 60
    requires (endMin - startMin) as real / TOTAL_MINUTES as real * 100.0 >= 2.0
    ensures SlotStyle(startMin, endMin).top + SlotStyle(startMin, endMin).height <= 100.0
  {
  }

  /** A slot that starts no earlier sits no higher, and one that is no longer
      is no taller. */
  lemma SlotStyleMonotone(startMin: int, endMin: int, startMin': int, endMin': int)
    requires startMin <= startMin' && endMin' - startMin' <= endMin - startMin
    ensures SlotStyle(startMin, endMin).top <= SlotStyle(startMin', endMin').top
    ensures SlotStyle(startMin', endMin').height <= SlotStyle(startMin, endMin).height
  {
  }

  /** The full slot of the default times: from the top, an eighth of the
      column. */
  lemma DefaultSlotBox()
    ensures SlotStyle(480, 540) == SlotBox(0.0, 12.5)
  {
  }

  // --- Saving and deleting --------------------------------------------------------------

  /** The modal's fields; an empty text or zero hours is a field left blank. */
  datatype SlotForm = SlotForm(startTime: string, endTime: string, defaultHours: nat, courseId: Id, labelText: string)

  /** The slot the modal describes, on the active day; blank fields take
      08:00, 09:00, one hour and no label. */
  function NewSlot(form: SlotForm, activeDay: int): (s: ScheduleSlot)
    ensures s.dayOfWeek == activeDay && s.courseId == form.courseId
    ensures s.startTime == (if form.startTime == "" then "08:00" else form.startTime)
    ensures s.endTime == (if form.endTime == "" then "09:00" else form.endTime)
    ensures s.defaultHours == (if form.defaultHours == 0 then 1 else form.defaultHours) && s.defaultHours >= 1
    ensures s.labelText == form.labelText
  {
    ScheduleSlot(activeDay,
                 if form.startTime != "" then form.startTime else "08:00",
                 if form.endTime != "" then form.endTime else "09:00",
                 form.courseId,
                 if form.defaultHours != 0 then form.defaultHours else 1,
                 form.labelText)
  }

  /** The timetable after saving: unchanged without a course; otherwise the
      slot being edited is replaced, or a new slot is appended. */
  function SavedSchedule(schedule: seq<ScheduleSlot>, form: SlotForm, activeDay: int, editing: Option<nat>): seq<ScheduleSlot>
    requires editing.Some? ==> editing.value < |schedule|
  {
    if form.courseId == "" then schedule
    else if editing.Some? then schedule[editing.value := NewSlot(form, activeDay)]
    else schedule + [NewSlot(form, activeDay)]
  }

  /** `handleSaveSlot` */
  method SaveSlot(schedule: seq<ScheduleSlot>, form: SlotForm, activeDay: int, editing: Option<nat>)
    returns (newSchedule: seq<ScheduleSlot>)
    requires editing.Some? ==> editing.value < |schedule|
    ensures newSchedule == SavedSchedule(schedule, form, activeDay, editing)
    ensures form.courseId == "" ==> newSchedule == schedule
    ensures form.courseId != "" && editing.Some? ==>
      |newSchedule| == |schedule| && newSchedule[editing.value] == NewSlot(form, activeDay)
      && forall i :: 0 <= i < |schedule| && i != editing.value ==> newSchedule[i] == schedule[i]
    ensures form.courseId != "" && editing.None? ==>
      |newSchedule| == |schedule| + 1 && newSchedule[..|schedule|] == schedule
      && newSchedule[|schedule|] == NewSlot(form, activeDay) && newSchedule[|schedule|].dayOfWeek == activeDay
  {
    if form.courseId == "" {
      return schedule;
    }
    var newSlot := NewSlot(form, activeDay);
    newSchedule := schedule;
    if editing.Some? {
      newSchedule := newSchedule[editing.value := newSlot];
    } else {
      newSchedule := newSchedule + [newSlot];
    }
  }

  /** `handleDeleteSlot`: the slot being edited goes; with none being edited
      nothing changes. */
  function DeleteSlot(schedule: seq<ScheduleSlot>, editing: Option<nat>): (r: seq<ScheduleSlot>)
    ensures editing.None? ==> r == schedule
    ensures editing.Some? && editing.value < |schedule| ==>
      |r| == |schedule| - 1 && r == schedule[..editing.value] + schedule[editing.value + 1..]
  {
    if editing.None? then schedule else RemoveAt(schedule, editing.value)
  }

  /** Deleting a slot just added takes the timetable back to what it was. */
  lemma DeleteAddedSlot(schedule: seq<ScheduleSlot>, form: SlotForm, activeDay: int)
    requires form.courseId != ""
    ensures DeleteSlot(SavedSchedule(schedule, form, activeDay, None), Some(|schedule|)) == schedule
  {
    var added := SavedSchedule(schedule, form, activeDay, None);
    assert added[..|schedule|] == schedule;
    assert added[|schedule| + 1..] == [];
  }

  /** Saving the slot being edited once more with the same form changes
      nothing further. */
  lemma SaveTwice(schedule: seq<ScheduleSlot>, form: SlotForm, activeDay: int, i: nat)
    requires i < |schedule|
    ensures var once := SavedSchedule(schedule, form, activeDay, Some(i));
      SavedSchedule(once, form, activeDay, Some(i)) == once
  {
  }
}
