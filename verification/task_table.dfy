/**
 The editing rules of the task table (components/TaskTable.tsx): a priority
 change and a status change each build the record handed to `onUpdateTask`,
 or hand nothing on; the delivery date is formatted for display.

 The quota check `checkPriorityLimit` is not part of this model; it is a
 parameter, and only what the table passes to it and does with its answer is
 stated here.
 */
module TaskTable {
  import opened Types
  import opened Text

  /** checkPriorityLimit(allTasks, week, team, area, priority, excludeId) allows the change. */
  type QuotaCheck = (seq<Task>, string, string, string, Priority, string) -> bool

  /** `a` and `b` agree on every field except priority and status. */
  predicate SameOtherFields(a: Task, b: Task)
  {
    && a.id == b.id && a.title == b.title && a.week == b.week && a.area == b.area
    && a.responsible == b.responsible && a.requester == b.requester
    && a.deliveryDate == b.deliveryDate && a.comments == b.comments
  }

  /** A completed task holds the lowest priority. */
  predicate CompletionRule(t: Task)
  {
    t.status == Completada ==> t.priority == Baja
  }

  /** `handlePriorityChange`: `Some` is the record handed to `onUpdateTask`,
      `None` an early return. Only the `Head` role may change a priority, and
      only when the quota check, asked about the task's own week, team and
      area with the task itself excluded, allows it. */
  function PriorityChange(role: Role, task: Task, newPriority: Priority, allTasks: seq<Task>,
                          checkPriorityLimit: QuotaCheck): (r: Option<Task>)
    ensures r.Some? <==>
      (role == Head && checkPriorityLimit(allTasks, task.week, task.responsible, task.area, newPriority, task.id))
    ensures r.Some? ==>
      (r.value.priority == newPriority && r.value.status == task.status && SameOtherFields(r.value, task))
  {
    if role != Head then None
    else if !checkPriorityLimit(allTasks, task.week, task.responsible, task.area, newPriority, task.id) then None
    else Some(task.(priority := newPriority))
  }

  /** `handleStatusChange`: no role gate and no quota check. Completing a task
      forces the lowest priority; any other status keeps the priority. */
  function StatusChange(task: Task, newStatus: Status): (r: Task)
    ensures r.status == newStatus
    ensures newStatus == Completada ==> r.priority == Baja
    ensures newStatus != Completada ==> r.priority == task.priority
    ensures SameOtherFields(r, task)
  {
    if newStatus == Completada then task.(status := newStatus, priority := Baja)
    else task.(status := newStatus)
  }

  /** Whatever the task was, a status change leaves it obeying the completion rule. */
  lemma StatusChangeEstablishesCompletionRule(task: Task, newStatus: Status)
    ensures CompletionRule(StatusChange(task, newStatus))
  {
  }

  /** Choosing the same status twice has the effect of choosing it once. */
  lemma StatusChangeIdempotent(task: Task, newStatus: Status)
    ensures StatusChange(StatusChange(task, newStatus), newStatus) == StatusChange(task, newStatus)
  {
  }

  /** The completion rule is enforced only when the status changes: a priority
      change on a completed task keeps it completed at the new priority. */
  lemma RaisingCompletedTask(task: Task, allTasks: seq<Task>, checkPriorityLimit: QuotaCheck)
    requires task.status == Completada
    requires checkPriorityLimit(allTasks, task.week, task.responsible, task.area, Urgente, task.id)
    ensures var r := PriorityChange(Head, task, Urgente, allTasks, checkPriorityLimit);
      r.Some? && r.value.status == Completada && !CompletionRule(r.value)
  {
  }

  /** The `k`-th piece of a split, or "undefined" when there is none, as a
      template literal renders a missing array element. */
  function Piece(parts: seq<string>, k: nat): (r: string)
    ensures k < |parts| ==> r == parts[k]
    ensures k >= |parts| ==> r == "undefined"
  {
    if k < |parts| then parts[k] else "undefined"
  }

  /** `formatDeliveryDate`: "Pendiente" for a missing or empty date; otherwise
      the date is split on '-' into year, month and day, and rendered as
      day/month/last two characters of the year. */
  function FormatDeliveryDate(date: Option<string>): (r: string)
    ensures r == "Pendiente" <==> date.None? || date.value == ""
  {
    if date.None? || date.value == "" then
      "Pendiente"
    else
      var parts := Split(date.value, '-');
      var r := Piece(parts, 2) + "/" + Piece(parts, 1) + "/" + LastTwo(parts[0]);
      assert r[|Piece(parts, 2)|] == '/';
      assert '/' !in "Pendiente";
      r
  }

  /** A "YYYY-MM-DD" style date becomes "DD/MM/YY". */
  lemma {:induction false} FormatYearMonthDay(year: string, month: string, day: string)
    requires '-' !in year && '-' !in month && '-' !in day
    ensures FormatDeliveryDate(Some(year + "-" + month + "-" + day)) == day + "/" + month + "/" + LastTwo(year)
  {
    var s := year + "-" + month + "-" + day;
    var parts := [year, month, day];
    assert parts[1..] == [month, day] && [month, day][1..] == [day];
    assert Join([month, day], '-') == month + ['-'] + day;
    assert Join(parts, '-') == year + ['-'] + (month + ['-'] + day);
    assert s == Join(parts, '-');
    SplitJoin(parts, '-');
    assert Split(s, '-') == parts;
  }

  /** A date without '-' has no month and no day: both render as "undefined". */
  lemma {:induction false} FormatWithoutSeparator(date: string)
    requires date != "" && '-' !in date
    ensures FormatDeliveryDate(Some(date)) == "undefined/undefined/" + LastTwo(date)
  {
    SplitWhole(date, '-');
    var u: string := "undefined";
    assert Piece([date], 2) == u && Piece([date], 1) == u;
    assert u + "/" + u + "/" == "undefined/undefined/" by {
      assert |u + "/" + u + "/"| == 20;
    }
  }
}
