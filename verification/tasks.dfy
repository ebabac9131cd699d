/** The task record of the task list and the two decision procedures the list
    is built on: the expiry rule and the numeric section rank used by the sort.
    Every instant is wall-clock seconds in the user's zone (see `Clock`); `now`
    is the user's current wall-clock instant, passed in by the caller. */
module Tasks {
  import opened Wrappers
  import opened Clock

  /** `status` as the server sends it; any other string is `Other`. */
  datatype Status = Pending | InProgress | Completed | Other

  /** A clock time of the form `HH:MM`, already read into numbers. */
  datatype Time = Time(hour: int, minute: int)

  /** One task as the list holds it.
      - `start`: the instant of `new Date(start_date)`;
      - `endDay`: the day number of the `YYYY-MM-DD` prefix of `end_date`;
      - `startTime`, `endTime`: `None` when the field is null or empty. */
  datatype Task = Task(
    id: int,
    name: string,
    start: int,
    endDay: int,
    startTime: Option<Time>,
    endTime: Option<Time>,
    status: Status,
    priority: string)

  /** The instant at which a task stops being on time: the end of its end day
      (23:59:59) when it has no end time, its end day at `endTime` otherwise. */
  function Deadline(t: Task): (d: int)
    ensures t.endTime.None? ==> d + 1 == At(t.endDay + 1, 0, 0, 0)
    ensures t.endTime.Some? && 0 <= t.endTime.value.hour < 24 && 0 <= t.endTime.value.minute < 60 ==>
      At(t.endDay, 0, 0, 0) <= d < At(t.endDay + 1, 0, 0, 0)
  {
    match t.endTime
    case None => At(t.endDay, 23, 59, 59)
    case Some(e) => At(t.endDay, e.hour, e.minute, 0)
  }

  /** `isTaskExpired`: a task that is not completed is expired once its deadline
      lies strictly before now. */
  predicate IsExpired(t: Task, now: int)
    ensures IsExpired(t, now) ==> t.status != Completed
    ensures t.status != Completed && t.endTime.None? ==>
      (IsExpired(t, now) <==> now >= At(t.endDay + 1, 0, 0, 0))
  {
    if t.status == Completed then false else Deadline(t) < now
  }

  /** The expiry rule spelled out case by case, both directions. */
  lemma ExpiryRule(t: Task, now: int)
    ensures t.status == Completed ==> !IsExpired(t, now)
    ensures t.status != Completed && t.endTime.None? ==>
      (IsExpired(t, now) <==> At(t.endDay, 23, 59, 59) < now)
    ensures t.status != Completed && t.endTime.Some? ==>
      (IsExpired(t, now) <==> At(t.endDay, t.endTime.value.hour, t.endTime.value.minute, 0) < now)
  {
  }

  /** A task without an end time is expired exactly from the first second of
      the day after its end day, whatever the day's last second is. */
  lemma UntimedExpiresAtNextDay(t: Task, now: int)
    requires t.status != Completed && t.endTime.None?
    ensures IsExpired(t, now) <==> now >= At(t.endDay + 1, 0, 0, 0)
  {
  }

  /** Once expired, a task stays expired as time passes. */
  lemma ExpiredStaysExpired(t: Task, now: int, later: int)
    requires now <= later
    ensures IsExpired(t, now) ==> IsExpired(t, later)
  {
  }

  /** `getSectionOrder`: 3 for expired, 2 when the start instant is after now,
      then 1 in progress, 0 pending, 4 completed, 5 for any other status. */
  function Rank(t: Task, now: int): (r: nat)
    ensures r <= 5
  {
    if IsExpired(t, now) then 3
    else if t.start > now then 2
    else match t.status
      case InProgress => 1
      case Pending => 0
      case Completed => 4
      case Other => 5
  }

  /** Each rank stands for exactly one situation. */
  lemma RankMeaning(t: Task, now: int)
    ensures Rank(t, now) == 3 <==> IsExpired(t, now)
    ensures Rank(t, now) == 2 <==> !IsExpired(t, now) && t.start > now
    ensures Rank(t, now) == 1 <==> !IsExpired(t, now) && t.start <= now && t.status == InProgress
    ensures Rank(t, now) == 0 <==> !IsExpired(t, now) && t.start <= now && t.status == Pending
    ensures Rank(t, now) == 4 <==> t.start <= now && t.status == Completed
    ensures Rank(t, now) == 5 <==> !IsExpired(t, now) && t.start <= now && t.status == Other
  {
  }
}
