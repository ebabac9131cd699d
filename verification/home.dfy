/** The home screen's own state: the day's task counters, updated when a task
    is created from the home screen; the pending-task alert, shown at most once
    per notification period and remembered across visits through two stored
    flags; and the shortened title of the task card. Storage is modelled as a
    `Store` value and the hour as a parameter. */
module Home {
  import opened Wrappers
  import opened Text
  import opened Tasks
  import opened DayMoment
  import opened HomeMessages

  /** `handleTasksLengthUpdated`: a new task counts only when it has a start
      date whose UTC day (`startDay`) is today's (`today`); it then adds one
      to the total, one to the pending count unless it is completed, and one
      to the completed or in-progress count when it has that status. */
  function AddTask(s: TaskSummary, status: Status, startDay: Option<int>, today: int): (r: TaskSummary)
    ensures startDay.None? || startDay != Some(today) ==> r == s
  {
    if startDay.None? || startDay.value != today then s
    else TaskSummary(
      s.total + 1,
      if status == Completed then s.pending else s.pending + 1,
      if status == InProgress then s.inProgress + 1 else s.inProgress,
      if status == Completed then s.completed + 1 else s.completed)
  }

  /** A task of today moves the total by exactly one and each other counter
      by one exactly when the status says so; pending plus completed minus
      total is kept either way. */
  lemma AddTaskCounts(s: TaskSummary, status: Status, startDay: Option<int>, today: int)
    ensures var r := AddTask(s, status, startDay, today);
      && r.pending + r.completed - r.total == s.pending + s.completed - s.total
      && r.inProgress - s.inProgress <= r.total - s.total
    ensures startDay == Some(today) ==>
      var r := AddTask(s, status, startDay, today);
      && r.total == s.total + 1
      && (r.completed == s.completed + 1 <==> status == Completed)
      && (r.inProgress == s.inProgress + 1 <==> status == InProgress)
      && (r.pending == s.pending + 1 <==> status != Completed)
  {
  }

  /** A created task: its status and the UTC day of its start date, if any. */
  datatype NewTask = NewTask(status: Status, startDay: Option<int>)

  function AddTasks(s: TaskSummary, ts: seq<NewTask>, today: int): TaskSummary
    decreases |ts|
  {
    if |ts| == 0 then s
    else AddTasks(AddTask(s, ts[0].status, ts[0].startDay, today), ts[1..], today)
  }

  /** The number of created tasks with a start date today. */
  function CountToday(ts: seq<NewTask>, today: int): nat
    decreases |ts|
  {
    if |ts| == 0 then 0
    else (if ts[0].startDay == Some(today) then 1 else 0) + CountToday(ts[1..], today)
  }

  /** After any run of creations the total has grown by the number created
      for today, and the balance of pending, completed and total is kept. */
  lemma {:induction false} AddTasksTotal(s: TaskSummary, ts: seq<NewTask>, today: int)
    ensures AddTasks(s, ts, today).total == s.total + CountToday(ts, today)
    ensures var r := AddTasks(s, ts, today);
      r.pending + r.completed - r.total == s.pending + s.completed - s.total
    decreases |ts|
  {
    if |ts| > 0 {
      AddTaskCounts(s, ts[0].status, ts[0].startDay, today);
      AddTasksTotal(AddTask(s, ts[0].status, ts[0].startDay, today), ts[1..], today);
    }
  }

  /** The notification period of an hour. Its boundaries (0..7, 8..17, the
      rest) are not those of the greeting's moments. */
  datatype Period = MorningPeriod | AfternoonPeriod | NightPeriod

  function PeriodOf(hour: int): (p: Period)
    ensures !(0 <= hour < 18) ==> p == NightPeriod
    ensures p == MorningPeriod ==> MomentOf(hour) == Sleep || MomentOf(hour) == Morning
  {
    if 0 <= hour < 8 then MorningPeriod
    else if 8 <= hour < 18 then AfternoonPeriod
    else NightPeriod
  }

  /** The period's hours on a 0..23 clock: the first eight, the next ten, and
      the last six. */
  lemma PeriodRanges(hour: int)
    requires 0 <= hour < 24
    ensures PeriodOf(hour) == MorningPeriod <==> hour < 8
    ensures PeriodOf(hour) == AfternoonPeriod <==> 8 <= hour < 18
    ensures PeriodOf(hour) == NightPeriod <==> 18 <= hour
  {
  }

  /** The two stored flags: `taskNotified` ("true" or not) and
      `lastNotifiedPeriod` (absent at first). */
  datatype Store = Store(taskNotified: bool, lastPeriod: Option<Period>)

  /** The mount effect: entering a new period arms the alert and records the
      period; within the stored period nothing changes. */
  function Mount(st: Store, hour: int): (r: Store)
    ensures r.lastPeriod == Some(PeriodOf(hour))
    ensures st.lastPeriod == Some(PeriodOf(hour)) ==> r == st
    ensures st.lastPeriod != Some(PeriodOf(hour)) ==> r.taskNotified
  {
    var p := PeriodOf(hour);
    if st.lastPeriod != Some(p) then Store(true, Some(p)) else st
  }

  datatype Loaded = Loaded(alert: bool, store: Store)

  /** After the counts arrive: the alert shows when some task is pending or in
      progress and the alert is armed, and showing it disarms it. */
  function Load(st: Store, pending: nat, inProgress: nat): (r: Loaded)
    ensures r.alert <==> (pending > 0 || inProgress > 0) && st.taskNotified
    ensures r.alert ==> !r.store.taskNotified
    ensures r.store.lastPeriod == st.lastPeriod
    ensures !r.alert ==> r.store == st
  {
    if (pending > 0 || inProgress > 0) && st.taskNotified then Loaded(true, st.(taskNotified := false))
    else Loaded(false, st)
  }

  /** One visit of the home screen: the hour it happens at and the counts the
      server returns. */
  datatype Visit = Visit(hour: int, pending: nat, inProgress: nat)

  /** The alerts of a run of visits, with the number of period changes seen
      and the store left behind. */
  datatype Run = Run(alerts: nat, changes: nat, store: Store)

  function Visits(st: Store, vs: seq<Visit>): Run
    decreases |vs|
  {
    if |vs| == 0 then Run(0, 0, st)
    else
      var v := vs[0];
      var changed := st.lastPeriod != Some(PeriodOf(v.hour));
      var loaded := Load(Mount(st, v.hour), v.pending, v.inProgress);
      var rest := Visits(loaded.store, vs[1..]);
      Run(rest.alerts + (if loaded.alert then 1 else 0), rest.changes + (if changed then 1 else 0), rest.store)
  }

  /** An alert needs a period change since the last one: over any run of
      visits, the alerts shown and an alert still armed at the end are at
      most the period changes plus an alert already armed at the start. */
  lemma {:induction false} AlertOncePerPeriod(st: Store, vs: seq<Visit>)
    ensures var r := Visits(st, vs);
      r.alerts + (if r.store.taskNotified then 1 else 0) <= r.changes + (if st.taskNotified then 1 else 0)
    decreases |vs|
  {
    if |vs| > 0 {
      var v := vs[0];
      var loaded := Load(Mount(st, v.hour), v.pending, v.inProgress);
      AlertOncePerPeriod(loaded.store, vs[1..]);
    }
  }

  /** Visits within the stored period show no alert once it has been shown
      or was never armed. */
  lemma NoAlertWithoutChange(st: Store, vs: seq<Visit>)
    requires !st.taskNotified
    requires forall i :: 0 <= i < |vs| ==> st.lastPeriod == Some(PeriodOf(vs[i].hour))
    ensures Visits(st, vs).alerts == 0
  {
    AlertOncePerPeriod(st, vs);
    NoChanges(st, vs);
  }

  lemma {:induction false} NoChanges(st: Store, vs: seq<Visit>)
    requires !st.taskNotified
    requires forall i :: 0 <= i < |vs| ==> st.lastPeriod == Some(PeriodOf(vs[i].hour))
    ensures Visits(st, vs).changes == 0
    decreases |vs|
  {
    if |vs| > 0 {
      var v := vs[0];
      assert st.lastPeriod == Some(PeriodOf(v.hour));
      var loaded := Load(Mount(st, v.hour), v.pending, v.inProgress);
      assert loaded.store == st;
      NoChanges(st, vs[1..]);
    }
  }

  /** The task card's title: names longer than 25 characters show their
      first 25 followed by "...". */
  function CardTitle(name: string): (r: string)
    ensures |name| <= 25 ==> r == name
    ensures |name| > 25 ==> r == name[..25] + "..."
  {
    Truncate(name, 25)
  }
}
