/** `getContextMessage`: the sentence under the home screen's task card,
    chosen from the moment of the day and the day's task summary. Each
    sentence is a `Context` value; the counts a sentence shows travel with it. */
module HomeMessages {
  import opened DayMoment

  /** The day's task counts as the server reports them. */
  datatype TaskSummary = TaskSummary(total: nat, pending: nat, inProgress: nat, completed: nat)

  datatype Context =
    | Rest                                    // late: go and rest
    | MorningEmpty                            // start the day by creating a task or a goal
    | MorningBoth(pending: nat, inProgress: nat)  // p pending and i in progress
    | PendingOne                              // one pending task, let's start it
    | PendingMany(pending: nat)               // p pending tasks, pick one
    | ContinueOne                             // go on with the task already started
    | ContinueMany(inProgress: nat)           // go on with the i tasks already started
    | MorningAllDone                          // good start, everything done
    | MorningPick                             // pick an important task and start calmly
    | AfternoonEmpty                          // no tasks created today yet
    | AfternoonInProgress(inProgress: nat)    // i tasks in progress, keep going
    | AfternoonAllDone                        // good work, all tasks done
    | NightEmpty                              // a quiet day
    | NightCompleted(completed: nat, total: nat)  // completed c of t tasks
    | NightInProgress                         // tasks in progress, keep working
    | NightNotToday                           // it did not happen today, and that is fine
    | NightAllDone                            // excellent work today

  function ContextMessage(m: Moment, s: TaskSummary): (c: Context)
    ensures c == Rest <==> m == Sleep
    ensures (m == Morning || m == Afternoon) && s.total > 0 && s.pending == 1 && s.inProgress == 0 ==> c == PendingOne
  {
    match m
    case Sleep => Rest
    case Morning =>
      if s.total == 0 then MorningEmpty
      else if s.pending > 0 && s.inProgress > 0 then MorningBoth(s.pending, s.inProgress)
      else if s.pending > 0 then (if s.pending == 1 then PendingOne else PendingMany(s.pending))
      else if s.inProgress > 0 then (if s.inProgress == 1 then ContinueOne else ContinueMany(s.inProgress))
      else if s.completed == s.total then MorningAllDone
      else MorningPick
    case Afternoon =>
      if s.total == 0 then AfternoonEmpty
      else if s.pending > 0 then (if s.pending == 1 then PendingOne else PendingMany(s.pending))
      else if s.inProgress > 0 then AfternoonInProgress(s.inProgress)
      else AfternoonAllDone
    case Night =>
      if s.total == 0 then NightEmpty
      else if s.pending > 0 || s.inProgress > 0 then
        (if s.completed > 0 then NightCompleted(s.completed, s.total)
         else if s.inProgress > 0 then NightInProgress
         else NightNotToday)
      else NightAllDone
  }

  /** The "no tasks" sentence of each waking moment. */
  function EmptyMessage(m: Moment): Context {
    match m
    case Sleep => Rest
    case Morning => MorningEmpty
    case Afternoon => AfternoonEmpty
    case Night => NightEmpty
  }

  /** Late at night the rest sentence is shown whatever the counts; awake, a
      day without tasks gets the moment's own "no tasks" sentence, and only
      such a day does. */
  lemma RestAndEmpty(m: Moment, s: TaskSummary)
    ensures m == Sleep ==> ContextMessage(m, s) == Rest
    ensures m != Sleep ==> (ContextMessage(m, s) == EmptyMessage(m) <==> s.total == 0)
  {
  }

  /** With tasks started and none pending, the morning says to go on with the
      started task, in the singular iff one is in progress, and the afternoon
      says how many are in progress. */
  lemma InProgressOnly(s: TaskSummary)
    requires s.total > 0 && s.pending == 0 && s.inProgress > 0
    ensures ContextMessage(Morning, s) == ContinueOne <==> s.inProgress == 1
    ensures ContextMessage(Morning, s) == ContinueMany(s.inProgress) <==> s.inProgress > 1
    ensures ContextMessage(Afternoon, s) == AfternoonInProgress(s.inProgress)
  {
  }

  /** In the morning pending and started tasks together give the combined
      sentence with both counts, and only they do. */
  lemma MorningCombined(s: TaskSummary)
    requires s.total > 0
    ensures ContextMessage(Morning, s).MorningBoth? <==> s.pending > 0 && s.inProgress > 0
    ensures ContextMessage(Morning, s).MorningBoth? ==>
      ContextMessage(Morning, s) == MorningBoth(s.pending, s.inProgress)
  {
  }

  /** Morning and afternoon speak of pending tasks before started ones, in
      the singular exactly when one task is pending. */
  lemma PendingFirst(m: Moment, s: TaskSummary)
    requires m == Morning || m == Afternoon
    requires s.total > 0 && s.pending > 0
    requires m == Morning ==> s.inProgress == 0
    ensures ContextMessage(m, s) == PendingOne <==> s.pending == 1
    ensures ContextMessage(m, s) == PendingMany(s.pending) <==> s.pending > 1
  {
  }

  /** At night, with open tasks: any completed task gives "completed c of t",
      otherwise started tasks give the in-progress sentence, otherwise "it
      did not happen today". */
  lemma NightOpenTasks(s: TaskSummary)
    requires s.total > 0 && (s.pending > 0 || s.inProgress > 0)
    ensures ContextMessage(Night, s) == NightCompleted(s.completed, s.total) <==> s.completed > 0
    ensures ContextMessage(Night, s) == NightInProgress <==> s.completed == 0 && s.inProgress > 0
    ensures ContextMessage(Night, s) == NightNotToday <==> s.completed == 0 && s.inProgress == 0
  {
  }

  /** With tasks but none open, the afternoon and the night praise the day;
      the morning does so only when every task is completed. */
  lemma NothingOpen(s: TaskSummary)
    requires s.total > 0 && s.pending == 0 && s.inProgress == 0
    ensures ContextMessage(Afternoon, s) == AfternoonAllDone
    ensures ContextMessage(Night, s) == NightAllDone
    ensures ContextMessage(Morning, s) == MorningAllDone <==> s.completed == s.total
  {
  }

  /** Every count a sentence shows is a positive count of the summary. */
  lemma CountsShown(m: Moment, s: TaskSummary)
    ensures ContextMessage(m, s).MorningBoth? ==> s.pending > 0 && s.inProgress > 0
    ensures ContextMessage(m, s).PendingMany? ==> ContextMessage(m, s).pending == s.pending > 1
    ensures ContextMessage(m, s).ContinueMany? ==> ContextMessage(m, s).inProgress == s.inProgress > 1
    ensures ContextMessage(m, s).AfternoonInProgress? ==> ContextMessage(m, s).inProgress == s.inProgress > 0
    ensures ContextMessage(m, s).NightCompleted? ==>
      0 < ContextMessage(m, s).completed == s.completed && ContextMessage(m, s).total == s.total
  {
  }
}
