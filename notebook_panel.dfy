/** The notebook: pending tasks ordered by due date (undated ones last,
    newest first), completed tasks latest first, the next three calendar
    events, the urgency of a due date and the add-task form. */
module NotebookPanel {
  import opened Wrappers
  import opened Seqs
  import opened Text
  import opened Dates
  import opened Types
  import Dashboard
  import App

  // --- Task lists ---------------------------------------------------------------------

  function IsOpen(t: NotebookTask): bool {
    !t.completed
  }

  function IsDone(t: NotebookTask): bool {
    t.completed
  }

  /** The pending comparator, read as "may come first": a dated task before
      an undated one, two dated tasks by due date, two undated tasks newest
      created first. */
  function PendingLe(a: NotebookTask, b: NotebookTask): bool {
    if a.dueDate.Some? && b.dueDate.Some? then a.dueDate.value <= b.dueDate.value
    else if a.dueDate.Some? then true
    else if b.dueDate.Some? then false
    else b.createdDate <= a.createdDate
  }

  /** `a.completedDate || a.createdDate` */
  function CompletionKey(t: NotebookTask): Instant {
    t.completedDate.GetOr(t.createdDate)
  }

  /** The completed comparator: the latest completion first. */
  function CompletedLe(a: NotebookTask, b: NotebookTask): bool {
    CompletionKey(b) <= CompletionKey(a)
  }

  lemma PendingLeOrders()
    ensures Total(PendingLe) && Transitive(PendingLe)
  {
  }

  function PendingTasks(tasks: seq<NotebookTask>): seq<NotebookTask> {
    SortBy(Filter(tasks, IsOpen), PendingLe)
  }

  function CompletedTasks(tasks: seq<NotebookTask>): seq<NotebookTask> {
    SortBy(Filter(tasks, IsDone), CompletedLe)
  }

  /** Every task is in exactly one of the lists, as often as it is in the
      notebook; the pending list holds only open tasks and the other only
      completed ones. */
  lemma ListsPartitionTasks(tasks: seq<NotebookTask>)
    ensures multiset(PendingTasks(tasks)) + multiset(CompletedTasks(tasks)) == multiset(tasks)
    ensures forall t :: t in PendingTasks(tasks) <==> t in tasks && !t.completed
    ensures forall t :: t in CompletedTasks(tasks) <==> t in tasks && t.completed
  {
    FilterPartition(tasks, IsOpen, IsDone);
    PendingMembers(tasks);
    CompletedMembers(tasks);
  }

  lemma PendingMembers(tasks: seq<NotebookTask>)
    ensures forall t :: t in PendingTasks(tasks) <==> t in tasks && !t.completed
  {
    SortByMembers(Filter(tasks, IsOpen), PendingLe);
    FilterMembers(tasks, IsOpen);
  }

  lemma CompletedMembers(tasks: seq<NotebookTask>)
    ensures forall t :: t in CompletedTasks(tasks) <==> t in tasks && t.completed
  {
    SortByMembers(Filter(tasks, IsDone), CompletedLe);
    FilterMembers(tasks, IsDone);
  }

  /** In the pending list every dated task comes before every undated one,
      dated tasks go by ascending due date and undated ones by descending
      creation time. */
  lemma PendingOrder(tasks: seq<NotebookTask>)
    ensures var r := PendingTasks(tasks);
      (forall i, j :: 0 <= i < j < |r| && r[j].dueDate.Some? ==> r[i].dueDate.Some?)
      && (forall i, j :: 0 <= i < j < |r| && r[i].dueDate.Some? && r[j].dueDate.Some? ==>
            r[i].dueDate.value <= r[j].dueDate.value)
      && (forall i, j :: 0 <= i < j < |r| && r[i].dueDate.None? && r[j].dueDate.None? ==>
            r[j].createdDate <= r[i].createdDate)
  {
    PendingLeOrders();
    SortBySorted(Filter(tasks, IsOpen), PendingLe);
  }

  /** The completed list goes from the latest completion (or creation, for a
      task without a completion date) to the earliest. */
  lemma CompletedOrder(tasks: seq<NotebookTask>)
    ensures var r := CompletedTasks(tasks);
      forall i, j :: 0 <= i < j < |r| ==> CompletionKey(r[j]) <= CompletionKey(r[i])
  {
    SortBySorted(Filter(tasks, IsDone), CompletedLe);
  }

  /** `upcomingEvents`: the next three events. */
  function UpcomingEvents(events: seq<CalendarEvent>, today: Day): seq<CalendarEvent> {
    Dashboard.Upcoming(events, today, 3)
  }

  /** At most three events, all from today on and in date order; the first of
      them are the dashboard's first ones. */
  lemma UpcomingEventsSpec(events: seq<CalendarEvent>, today: Day)
    ensures var r := UpcomingEvents(events, today);
      |r| <= 3
      && (forall i :: 0 <= i < |r| ==> r[i] in events && r[i].date.Some? && r[i].date.value >= today)
      && (forall i, j :: 0 <= i < j < |r| ==> r[i].date.value <= r[j].date.value)
      && r == Dashboard.UpcomingEvents(events, today)[..|r|]
  {
    Dashboard.UpcomingSpec(events, today, 3);
  }

  // --- Urgency -------------------------------------------------------------------------

  /** `Math.ceil(x / d)` for a positive divisor, on Dafny's flooring
      division. */
  function CeilDiv(x: int, d: int): (q: int)
    requires d > 0
    ensures (q - 1) * d < x <= q * d
  {
    -((-x) / d)
  }

  datatype Urgency = NoDate | Overdue | Urgent | Soon | Later {
    /** `getUrgencyClass`'s class names. */
    function Class(): string {
      match this
      case NoDate => ""
      case Overdue => "text-red-600 font-bold"
      case Urgent => "text-red-500"
      case Soon => "text-orange-500"
      case Later => "text-gray-500"
    }

    function Rank(): nat {
      match this
      case Overdue => 4
      case Urgent => 3
      case Soon => 2
      case Later => 1
      case NoDate => 0
    }
  }

  /** The whole days, rounded up, from the start of today (an instant) to the
      midnight that starts the due day. */
  function DaysUntil(due: Day, todayStart: Instant): int {
    CeilDiv(StartOfDay(due) - todayStart, MS_PER_DAY)
  }

  /** `getUrgencyClass`: overdue before the due day, urgent up to two days
      ahead, soon up to a week ahead. */
  function UrgencyOf(dueDate: Option<Day>, todayStart: Instant): (u: Urgency)
    ensures dueDate.None? <==> u == NoDate
    ensures dueDate.Some? ==>
      var diff := DaysUntil(dueDate.value, todayStart);
      (u == Overdue <==> diff < 0) && (u == Urgent <==> 0 <= diff <= 2)
      && (u == Soon <==> 2 < diff <= 7) && (u == Later <==> diff > 7)
  {
    match dueDate
    case None => NoDate
    case Some(due) =>
      var diffDays := DaysUntil(due, todayStart);
      if diffDays < 0 then Overdue
      else if diffDays <= 2 then Urgent
      else if diffDays <= 7 then Soon
      else Later
  }

  /** When today starts at a midnight of the day count, the rounded-up days
      are the plain difference of the days. */
  lemma DaysUntilWholeDays(due: Day, today: Day)
    ensures DaysUntil(due, StartOfDay(today)) == due - today
  {
    var x := StartOfDay(due) - StartOfDay(today);
    assert x == (due - today) * MS_PER_DAY;
    var q := CeilDiv(x, MS_PER_DAY);
    assert (q - 1) * MS_PER_DAY < (due - today) * MS_PER_DAY <= q * MS_PER_DAY;
    assert (q - 1) < due - today <= q by {
      LessTimes(q - 1, due - today, MS_PER_DAY);
      LessTimes(due - today - 1, q, MS_PER_DAY);
    }
  }

  lemma LessTimes(a: int, b: int, d: int)
    requires d > 0 && a * d < b * d
    ensures a < b
  {
  }

  /** A later due date is never more urgent. */
  lemma UrgencyMonotone(due1: Day, due2: Day, todayStart: Instant)
    requires due1 <= due2
    ensures UrgencyOf(Some(due2), todayStart).Rank() <= UrgencyOf(Some(due1), todayStart).Rank()
  {
    var x1, x2 := StartOfDay(due1) - todayStart, StartOfDay(due2) - todayStart;
    assert x1 <= x2;
    var q1, q2 := DaysUntil(due1, todayStart), DaysUntil(due2, todayStart);
    if q2 < q1 {
      assert (q1 - 1) * MS_PER_DAY < x1 <= x2 <= q2 * MS_PER_DAY;
      LessTimes(q1 - 1, q2, MS_PER_DAY);
    }
  }

  // --- Adding a task ----------------------------------------------------------------------

  /** The add-task form: the title, the due date (`None` for an empty date
      field) and whether the advanced options are shown. */
  datatype TaskForm = TaskForm(title: string, dueDate: Option<Day>, showAdvanced: bool)

  /** `handleAddTask`: a blank title does nothing; otherwise the task is
      handed over with its title trimmed, open and of medium priority, created
      now, and the form is cleared. */
  function HandleAddTask(form: TaskForm, now: Instant): (r: (Option<TaskDraft>, TaskForm))
    ensures IsBlank(form.title) <==> r.0.None?
    ensures r.0.None? ==> r.1 == form
    ensures r.0.Some? ==>
      r.0.value == TaskDraft(Trim(form.title), None, form.dueDate, false, now, Some(Medium))
      && r.1 == TaskForm("", None, false)
  {
    if IsBlank(form.title) then (None, form)
    else
      var newTask := TaskDraft(Trim(form.title), None, form.dueDate, false, now, Some(Medium));
      (Some(newTask), TaskForm("", None, false))
  }

  /** A task added from the form lands at the end of the notebook, open,
      and so in the pending list and not in the completed one. */
  lemma AddedTaskIsPending(form: TaskForm, now: Instant, tasks: seq<NotebookTask>, id: Id)
    requires !IsBlank(form.title)
    ensures var after := App.AddTask(tasks, HandleAddTask(form, now).0.value, id);
      after[|tasks|] in PendingTasks(after) && after[|tasks|] !in CompletedTasks(after)
  {
    var draft := HandleAddTask(form, now).0.value;
    var after := App.AddTask(tasks, draft, id);
    var t := after[|tasks|];
    assert !t.completed;
    assert t in after;
    ListsPartitionTasks(after);
  }

  /** The title handed over is neither blank nor padded with white space. */
  lemma AddedTitleTrimmed(form: TaskForm, now: Instant)
    requires !IsBlank(form.title)
    ensures var title := HandleAddTask(form, now).0.value.title;
      title != "" && Trim(title) == title
  {
    TrimEnds(form.title);
    TrimUntouched(Trim(form.title));
  }
}
