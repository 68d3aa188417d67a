/** The task item component: its own `isOverdue` without the dashboard's absent-deadline
    guard, and the overdue flag that decides both the highlight and the marker. */
module TaskItem {
  import Dashboard

  /** `isOverdue` of the component: `new Date(deadline) < new Date()` unless completed.
      `new Date(null)` is the epoch, time 0; `new Date(undefined)` and `new Date("")` are
      invalid dates, and every comparison with an invalid date is false. */
  function IsOverdue(deadline: Dashboard.Deadline, completed: bool, now: int): (overdue: bool) {
    if completed then false
    else match deadline
      case Missing => false
      case Null => 0 < now
      case At(time) => time < now
  }

  lemma OverdueMeaning(deadline: Dashboard.Deadline, completed: bool, now: int)
    ensures completed ==> !IsOverdue(deadline, completed, now)
    ensures deadline.At? && !completed ==> (IsOverdue(deadline, completed, now) <==> deadline.time < now)
  {
  }

  /** With a deadline present, the component and the dashboard agree on overdue. */
  lemma AgreesWithDashboard(deadline: Dashboard.Deadline, completed: bool, now: int)
    requires deadline.At?
    ensures IsOverdue(deadline, completed, now) == Dashboard.IsOverdue(deadline, completed, now)
  {
  }

  /** With a null deadline they disagree: the component compares the epoch with `now`. */
  lemma NullDeadlineDisagrees(now: int)
    requires now > 0
    ensures IsOverdue(Dashboard.Null, false, now) && !Dashboard.IsOverdue(Dashboard.Null, false, now)
  {
  }

  /** What the overdue flag decides in the rendered item. */
  datatype ItemLook = ItemLook(highlighted: bool, showsMarker: bool)

  /** The item computes `overdue` once and uses it for the border, the background and
      the "(Overdue)" marker. */
  function Look(task: Dashboard.Task, now: int): (look: ItemLook)
    ensures look.highlighted == look.showsMarker
    ensures look.showsMarker <==> IsOverdue(task.deadline, task.completed, now)
  {
    var overdue := IsOverdue(task.deadline, task.completed, now);
    ItemLook(overdue, overdue)
  }

  /** A completed task is never marked, whatever its deadline. */
  lemma CompletedNeverMarked(task: Dashboard.Task, now: int)
    requires task.completed
    ensures !Look(task, now).showsMarker && !Look(task, now).highlighted
  {
  }
}
