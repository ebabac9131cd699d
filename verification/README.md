# Tasly client decisions

Tasly is a personal task, goal and phrase organiser with a React client. This project models the pure decisions inside the client's views, as Dafny functions over immutable datatypes, and proves properties of them. The decisions covered are:

- **Task list** (`Tasks`, `TaskOrder`, `TaskView`, `TaskActions`):
  - the expiry rule;
  - the section rank and the stable sort by rank and start;
  - the section-label chain;
  - the section titles printed between the tasks;
  - the automatic start of pending tasks whose window has begun;
  - the status advance of the check box;
  - the priority vocabulary and the 12-hour clock format;
  - the list edits applied after the server accepts a change.
- **Goal view** (`GoalMessages`, `Goals`):
  - the motivational message generator;
  - the progress colours and the advance input;
  - the completed and expired marks;
  - the rotating phrase;
  - the completion sound, played once per goal and session;
  - the by-id list edits.
- **Home screen** (`DayMoment`, `HomeMessages`, `Home`):
  - the moment of the day, with its greeting and icon;
  - the context sentence under the task card;
  - the day's task counters;
  - the pending-task alert and its two stored flags;
  - the shortened card title.
- **Phrase view** (`Phrases`): the modal title and the by-id list edits.
- **Shared helpers**:
  - date formatting (`DateFormat`);
  - the by-id list edits (`ById`);
  - number rendering and parsing (`Text`);
  - the time frame (`Clock`).
- **Login and themes**: the blank-field checks (`Validation`) and the theme list with its toggle (`Themes`).

Time is explicit. Every task instant is an integer count of wall-clock seconds in the user's time zone. The user's current instant `now`, the hour of day and the stored flags are all parameters. The calendar day that `toISOString()` prints is the UTC day. `Clock.IsoDay` derives it from the wall-clock instant and the user's UTC offset.

## Model

| member | source | states |
|---|---|---|
| Clock.IsoDay | src/components/Task.tsx:1007-1012 | the UTC day printed for an instant is the day whose midnight-to-midnight span, shifted by the UTC offset, contains it |
| Clock.IsoDayMonotone | src/components/Task.tsx:1007-1012 | a later instant never has an earlier UTC day |
| Tasks.Deadline | src/components/Task.tsx:638-650 | without an end time the deadline is the last second of the end day; with a valid end time it lies within the end day |
| Tasks.IsExpired | src/components/Task.tsx:619-654 | a completed task is never expired, and an open task without end time is expired exactly from the first second after its end day |
| Tasks.ExpiryRule | src/components/Task.tsx:619-654 | a completed task is never expired; otherwise, without an end time it is expired iff 23:59:59 of its end day is before now, and with one iff the end day at that time (seconds 0) is before now |
| Tasks.UntimedExpiresAtNextDay | src/components/Task.tsx:638-645 | a task without end time becomes expired exactly from the first second of the day after its end day |
| Tasks.ExpiredStaysExpired | src/components/Task.tsx:619-654 | an expired task stays expired at every later instant |
| Tasks.Rank | src/components/Task.tsx:680-687 | the section rank is one of 0..5 |
| Tasks.RankMeaning | src/components/Task.tsx:680-687 | rank 3 iff expired, 2 iff not expired and starting after now, 1/0/4/5 iff started by now and in progress/pending/completed/other (for 4, a completed task is never expired) |
| TaskOrder.Sort | src/components/Task.tsx:661-698 | the sorted list is a permutation of the input, ordered by rank and then by start, and tasks of equal key keep their input order (stability) |
| TaskOrder.OrderTasks | src/components/Task.tsx:661-698 | the page's task order is a permutation of the tasks, by non-decreasing rank, by start within a rank, with equal keys in input order |
| TaskOrder.InsertOrdered | src/components/Task.tsx:692-697 | inserting a task into an ordered list keeps it ordered by the comparator |
| TaskOrder.InsertPermutes | src/components/Task.tsx:661 | inserting adds exactly the task to the multiset of tasks |
| TaskOrder.InsertStable | src/components/Task.tsx:661-698 | inserting after every task of equal key keeps the input order among equal keys |
| TaskView.Title | src/components/Task.tsx:1036-1068 | a title is empty iff nothing in the label chain matched |
| TaskView.SectionOf | src/components/Task.tsx:1036-1068 | every task whose status is pending, in progress or completed gets a non-empty title |
| TaskView.SectionRule | src/components/Task.tsx:1036-1068 | each label, in both directions, under the first-match chain: overdue iff expired; future iff not expired and its UTC day is after today's; and so on down to the empty label |
| TaskView.FutureLabelHasFutureRank | src/components/Task.tsx:675-682 | a task labelled future has the sort's future rank |
| TaskView.RankMatchesSection | src/components/Task.tsx:680-687 | when the instant test and the day test agree, the sort's rank is the rank of the task's label |
| TaskView.HeaderFlags | src/components/Task.tsx:750 | a title is printed before a task iff its label differs from the label before it, and before the first iff it differs from the starting `lastSection` |
| TaskView.HeaderCountIsRuns | src/components/Task.tsx:1070-1077 | the number of titles printed is the number of maximal runs of equal labels, and the first task always gets one |
| TaskView.Runs | src/components/Task.tsx:1070-1077 | the runs start with the first label and no two neighbouring runs carry the same label |
| TaskView.Label | src/components/Task.tsx:1036-1077 | each row carries its task and that task's label, the first row carries a title, and a later row carries one iff its label differs from the previous row's |
| TaskView.Render | src/components/Task.tsx:661-698 | with no search results on screen, the rows list the tasks in the page's sort order (a permutation by rank, by start within a rank, stable), each row carries its own task's label, and titles stand exactly at the label changes |
| TaskView.HeaderRepeatsAsWritten | src/components/Task.tsx:675-682 | for a concrete list west of Greenwich in the evening, the title "Tareas de hoy" is printed twice |
| TaskView.RenderFixed | src/components/Task.tsx:1036-1077 | sorted by the rank of the label, the rows are a permutation of the tasks, each row carries its own task's label, labels come in rank order with starts in order within a label, and titles stand at the label changes |
| TaskView.RenderFixedHeadersUnique | src/components/Task.tsx:1070-1077 | sorted by the rank of the label, no section title is printed twice |
| TaskView.HeadersUniqueWhenRanked | src/components/Task.tsx:1070-1071 | in rows ordered by section rank with titles at the changes, two titled rows never share a section |
| TaskView.DisplayCell | src/components/Task.tsx:1149-1198 | a date cell shows the clock time iff the task has that time, the date toggle is off and the section is one of the listed ones |
| TaskActions.AutoStartEligible | src/components/Task.tsx:149-184 | only a pending task with both times is started, and only when its start time is not after its end time |
| TaskActions.AutoStartTick | src/components/Task.tsx:146-224 | the tick returns every task unchanged and requests a start for exactly the ids of the pending tasks with both times whose window contains now |
| TaskActions.ApplyServerTask | src/components/Task.tsx:204-214 | the server's copy replaces exactly the tasks with its id |
| TaskActions.AutoStartOnce | src/components/Task.tsx:146-224 | once the server's started copy is applied, no task with that id is eligible and the next tick requests nothing for it |
| TaskActions.NextStatus | src/components/Task.tsx:310-314 | the next status is in progress iff the current one is pending, and is never pending |
| TaskActions.NextStatusAdvances | src/components/Task.tsx:310-314 | pending and in progress each move one step forward, and two clicks complete a pending task |
| TaskActions.CheckboxChange | src/components/Task.tsx:294-341 | clicking a completed task changes nothing; otherwise the tasks with the id take the next status, in the task list and in the search results alike, and nothing else changes |
| TaskActions.DeleteTask | src/components/Task.tsx:353-386 | both lists lose exactly the id and keep the rest in order, the back button hides when no result is left, and the empty-list notice shows iff no task is left |
| TaskActions.PriorityToSpanish | src/components/Task.tsx:77-108 | a task with a priority puts one of the three Spanish words in the edit form, "baja" for anything but "high" and "medium"; a task with an empty or null priority leaves the form's previous value |
| TaskActions.PriorityToEnglish | src/components/Task.tsx:401-412 | the result is one of the three English values, and any unknown input gives "low" |
| TaskActions.PriorityData | src/components/Task.tsx:275-282 | the badge is urgent iff "high" and important iff "medium"; every other value gets the badge of "low" |
| TaskActions.PriorityRoundTrip | src/components/Task.tsx:77-108 | English to Spanish and back is the identity on the three values and gives "low", with the same badge, for any other non-empty value; an empty priority saves the English of the previous form value, which is "low" on a fresh page |
| TaskActions.SpanishRoundTrip | src/components/Task.tsx:401-412 | Spanish to English and back is the identity on the three Spanish words, whatever the form held before |
| TaskActions.Hour12 | src/components/Task.tsx:729 | the 12-hour hour is in 1..12 and congruent to the hour modulo 12 |
| TaskActions.FormatHour | src/components/Task.tsx:720-722 | a missing or empty time shows "--:--" |
| TaskActions.FormatHourOfTime | src/components/Task.tsx:720-732 | a time `H:M` or `H:M:S` of digit strings, padded or not, shows as the 12-hour text of their values |
| TaskActions.FormatHourPadded | src/components/Task.tsx:719-732 | the stored zero-padded form `HH:mm` (or `HH:mm:ss`) shows as the 12-hour text of its hour and minute, so "09:05" shows as "9:05 AM" |
| TaskActions.FormatHourRejects | src/components/Task.tsx:724-725 | a value whose hour part is not a number shows "--:--" |
| TaskActions.ClockTextParts | src/components/Task.tsx:728-731 | the clock text starts with the 12-hour hour and ":", ends in "AM" iff the hour is before noon, and has at least two minute digits |
| TaskActions.ParseClockOfTime | src/components/Task.tsx:724 | splitting `H:M[:S]` on ":" and reading the numbers gives the values of the H and M digit strings, zero-padded or not |
| DateFormat.FormatDate | src/components/Task.tsx:700-717 | the shown date ends with a blank and the year piece as written |
| DateFormat.FormatDateOfDay | src/components/Goals.tsx:377-381 | `YYYY-MM-DD` shows as the day without leading zero, the month's abbreviation and the year as written |
| DateFormat.FormatDateIgnoresTime | src/components/Phrases.tsx:416-417 | the part after "T" does not change the shown date, so no time-zone shift is possible |
| DateFormat.FormatDateWithoutDay | src/components/Task.tsx:700-717 | a date part with fewer than three pieces shows "NaN" as its day |
| DateFormat.MonthName | src/components/Task.tsx:716 | the month's abbreviation is one of the twelve iff the month reads as 1..12 |
| DateFormat.ParseInt | src/components/Phrases.tsx:432 | `parseInt` gives a number iff the piece is present and starts with a digit |
| DateFormat.ParsePadded | src/components/Phrases.tsx:432 | `parseInt` of a zero-padded two-digit number gives that number back |
| DateFormat.SplitThree | src/components/Phrases.tsx:417 | three pieces joined by "-" split back into the same three pieces |
| GoalMessages.FloorDays | src/utils/goalMessages.ts:46 | `Math.floor(ms / DAY)` is the whole number of days, rounded down also for negative spans |
| GoalMessages.Holds | src/utils/goalMessages.ts:44-106 | a goal progressed today iff its last update lies less than a day before now; a stalled goal has at least three whole days since its update; an expiring goal has not ended yet |
| GoalMessages.Filter | src/utils/goalMessages.ts:44-108 | a goal is kept iff it is listed and passes the filter |
| GoalMessages.FilterHead | src/utils/goalMessages.ts:49-50 | the head of a filtered list is the first goal that passes the filter |
| GoalMessages.RuleMessage | src/utils/goalMessages.ts:44-117 | each filter's message is present iff some goal passes the filter, and every message from that filter is about the first goal that passes it |
| GoalMessages.FromRule | src/utils/goalMessages.ts:44-117 | the messages coming from a filter are exactly that filter's contribution |
| GoalMessages.UnitsDistinct | src/utils/goalMessages.ts:132-245 | the unit table has fifteen entries and no unit twice |
| GoalMessages.UnitMessage | src/utils/goalMessages.ts:247-257 | each table entry adds at most one message about its unit, and adds its picked message iff some goal has that unit and reaches its minimum |
| GoalMessages.UnitNotesOf | src/utils/goalMessages.ts:247-257 | the entries from a position on contribute exactly one message about an entry's unit, the picked one, when that entry is among them and some goal reaches it, and none otherwise |
| GoalMessages.Kinds | src/utils/goalMessages.ts:123-126 | a call with goals pushes the summary carrying the number of goals |
| GoalMessages.Put | src/utils/goalMessages.ts:264 | `map.set` keeps texts distinct, holds the new message, and either replaces the entry of the same text in place or appends |
| GoalMessages.PutTexts | src/utils/goalMessages.ts:264 | setting a message adds its text and loses none |
| GoalMessages.Dedup | src/utils/goalMessages.ts:264 | the deduplicated list has distinct texts and only input messages |
| GoalMessages.DedupTexts | src/utils/goalMessages.ts:264 | deduplication keeps every text |
| GoalMessages.DedupKeepsLast | src/utils/goalMessages.ts:264 | the message kept for a text occurs in the input at or after every occurrence of that text, so it is the last one |
| GoalMessages.Candidates | src/utils/goalMessages.ts:263-265 | the list handed to the shuffle has distinct texts and exactly the texts of the pushed messages |
| GoalMessages.IsOutput | src/utils/goalMessages.ts:263-265 | a possible output has as many messages as the deduplicated candidates |
| GoalMessages.OutputEmptyIffNoGoals | src/utils/goalMessages.ts:36 | the output is empty iff there are no goals |
| GoalMessages.OutputHasSummary | src/utils/goalMessages.ts:123-126 | with goals, the output holds the summary with the number of goals |
| GoalMessages.OutputMembers | src/utils/goalMessages.ts:263-265 | a message is in the shuffled output iff it is a deduplicated candidate |
| GoalMessages.OutputDistinct | src/utils/goalMessages.ts:263-265 | whatever order the shuffle picks, no two output messages share a text |
| GoalMessages.OutputFromKinds | src/utils/goalMessages.ts:263-265 | every output message is the wording of a pushed message |
| GoalMessages.PermutedDistinct | src/utils/goalMessages.ts:29 | any permutation of a list with distinct texts has distinct texts |
| Goals.ProgressColor | src/components/Goals.tsx:348-353 | the colour is one of the four band colours |
| Goals.ProgressBands | src/components/Goals.tsx:348-353 | red below 40, orange in 40..69, green in 70..94, blue from 95; each value in exactly one band, and bands never go down as the value grows |
| Goals.Accepts | src/components/Goals.tsx:442-447 | an accepted input is a number from the current value to 100, and a goal above 100 accepts nothing |
| Goals.AdvanceInput | src/components/Goals.tsx:442-447 | an input is taken iff it is a number between the current value and 100, otherwise the held value stays |
| Goals.AdvanceNeverBacktracks | src/components/Goals.tsx:442-447 | over any run of inputs the held value is the starting one or lies between the current value and 100 |
| Goals.IsCompleted | src/components/Goals.tsx:533 | a goal marked completed shows the blue progress band |
| Goals.IsExpired | src/components/Goals.tsx:534 | a goal marked expired is not marked completed, and today is not its end day |
| Goals.GoalMarks | src/components/Goals.tsx:533-534 | a goal is never both completed and expired, is not expired on its end day, and stays expired on later days |
| Goals.LexLessTransitive | src/components/Goals.tsx:534 | string `<` is transitive |
| Goals.LexLessIrreflexive | src/components/Goals.tsx:534 | no string is `<` itself |
| Goals.LoadIndex | src/components/Goals.tsx:60 | a missing or non-numeric stored index starts at 0 |
| Goals.NextIndex | src/components/Goals.tsx:70 | the next index is in range, one more short of the end, and 0 after the last |
| Goals.PhraseRotation | src/components/Goals.tsx:70-72 | after a tick a phrase is shown, and a reload resumes at the stored index |
| Goals.PhraseCycle | src/components/Goals.tsx:63-72 | from any shown phrase, as many ticks as there are phrases come back to it |
| Goals.ChimeStep | src/components/Goals.tsx:362-374 | in one run of the effect, the sound plays iff the goal is at 100 and not yet in the session set, and the id is then added |
| Goals.DepOf | src/components/Goals.tsx:375 | the effect's dependency is the previewed goal's value, and absent exactly when nothing is previewed |
| Goals.EffectRuns | src/components/Goals.tsx:375 | the effect runs at no more renders than there are, only on a preview that was shown, and each run sees a value different from the run before (the first one different from the mount) |
| Goals.PreviewChimesAreRunChimes | src/components/Goals.tsx:362-375 | over a run of renders the sound is exactly that of the renders where the previewed value changed |
| Goals.PreviewChimeOnce | src/components/Goals.tsx:362-375 | across renders from the empty preview the sound plays at most once per goal, never for a goal already celebrated, and only for a goal shown at 100 |
| Goals.SecondGoalSilent | src/components/Goals.tsx:333-338 | closing the preview keeps it set, so previewing goal 1 and then goal 2, both at 100, chimes for goal 1 only, where one run per preview would chime for both |
| Goals.ChimeOncePerGoal | src/components/Goals.tsx:362-375 | over a session the sound plays at most once per goal, never for a goal already celebrated, only for goals shown at 100 |
| Goals.EditDescription | src/components/Goals.tsx:202-213 | only the goals with the id take the new description, in both lists |
| Goals.Advance | src/components/Goals.tsx:249-260 | only the goals with the id take the new value, in both lists |
| Goals.DeleteGoal | src/components/Goals.tsx:158-171 | both lists lose exactly the id and keep the rest in order, the back button hides iff no result is left, and the empty-list notice shows iff no goal is left |
| DayMoment.MomentOf | src/utils/dayMoment.ts:6-9 | a clock hour lies in the six-hour block of its moment, and every hour outside 0..17 is night |
| DayMoment.MomentRanges | src/utils/dayMoment.ts:6-9 | sleep iff 0..5, morning iff 6..11, afternoon iff 12..17, night otherwise |
| DayMoment.MomentBlocks | src/utils/dayMoment.ts:6-9 | each clock hour is in exactly one moment, the six-hour block from its first hour |
| DayMoment.MomentMonotone | src/utils/dayMoment.ts:6-9 | moments never go back through the day |
| DayMoment.Greeting | src/utils/greetings.ts:3-8 | "Buenas noches" iff sleep or night |
| DayMoment.Icon | src/utils/greetings.ts:10-15 | the moon shows iff the greeting is "Buenas noches", and the sun iff it is "Buenos días" |
| DayMoment.GreetingByHour | src/utils/greetings.ts:3-15 | by hour: "Buenos días" and the sun iff 6..11, "Buenas tardes" and the cloudy sun iff 12..17, "Buenas noches" otherwise |
| HomeMessages.InProgressOnly | src/hooks/useHomeMessages.tsx:61-107 | with started tasks and none pending, the morning asks to continue the one started task iff exactly one is in progress and the started tasks by count iff more than one, and the afternoon gives the number in progress |
| HomeMessages.ContextMessage | src/hooks/useHomeMessages.tsx:26-130 | the rest sentence is shown iff it is the sleep moment, and in the morning or afternoon a lone pending task gets the "one pending task" sentence |
| HomeMessages.RestAndEmpty | src/hooks/useHomeMessages.tsx:26-34 | asleep the rest sentence is shown whatever the counts; awake, the moment's "no tasks" sentence is shown iff the total is 0 |
| HomeMessages.MorningCombined | src/hooks/useHomeMessages.tsx:36-45 | in the morning the combined sentence, with both counts, is shown iff tasks are both pending and in progress |
| HomeMessages.PendingFirst | src/hooks/useHomeMessages.tsx:47-59 | morning and afternoon speak of pending tasks first, in the singular iff one is pending |
| HomeMessages.NightOpenTasks | src/hooks/useHomeMessages.tsx:117-128 | at night with open tasks: completed c of t iff some task is completed, else in progress iff some is started, else "not today" |
| HomeMessages.NothingOpen | src/hooks/useHomeMessages.tsx:73-130 | with tasks but none open, afternoon and night give their all-done sentence, the morning iff all are completed |
| HomeMessages.CountsShown | src/hooks/useHomeMessages.tsx:36-128 | every count a sentence shows is the summary's positive count |
| Home.AddTask | src/components/Home.tsx:243-248 | a task without start date, or not starting today, leaves the counters unchanged |
| Home.AddTaskCounts | src/components/Home.tsx:250-259 | a task of today adds one to the total, and one to completed, in progress and pending iff its status says so; pending plus completed minus total is kept |
| Home.AddTasksTotal | src/components/Home.tsx:243-259 | over any run of creations the total grows by the number created for today, and the balance is kept |
| Home.PeriodOf | src/components/Home.tsx:129-135 | every hour outside 0..17 is the night period, and the morning period lies within the sleep and morning moments |
| Home.PeriodRanges | src/components/Home.tsx:129-135 | the notification period is morning for 0..7, afternoon for 8..17, night for 18..23 |
| Home.Mount | src/components/Home.tsx:137-142 | a new period arms the alert and is recorded; within the stored period nothing changes |
| Home.Load | src/components/Home.tsx:183-203 | the alert shows iff a task is open and the alert is armed, and showing it disarms it |
| Home.AlertOncePerPeriod | src/components/Home.tsx:137-203 | over any run of visits, the alerts shown are at most the period changes plus an alert armed at the start |
| Home.NoAlertWithoutChange | src/components/Home.tsx:137-203 | within the stored period, a disarmed alert is never shown |
| Home.CardTitle | src/components/Home.tsx:580-582 | names over 25 characters show their first 25 and "...", others are unchanged |
| Phrases.ModalTitle | src/components/Phrases.tsx:445-447 | texts over 225 characters show their first 225 and "...", others are unchanged |
| Phrases.SetFavorite | src/components/Phrases.tsx:298-312 | only the phrases with the id take the new flag, in both lists, and nothing else changes |
| Phrases.FavoriteToggleTwice | src/components/Phrases.tsx:298-312 | toggling a phrase's flag and toggling it back restores the list |
| Phrases.EditPhrase | src/components/Phrases.tsx:245-256 | only the phrases with the id take the new text and creation instant, in both lists |
| Phrases.DeletePhrase | src/components/Phrases.tsx:189-206 | both lists lose exactly the id and keep the rest in order, the back button hides iff no result is left, and the notice shows iff no phrase is left |
| ById.Remove | src/components/Goals.tsx:158-159 | an element is kept iff its id differs, with its multiplicity |
| ById.RemoveInOrder | src/components/Task.tsx:367-370 | `filter` keeps the survivors in order: one entry per survivor, and the survivor at position i lands after exactly the survivors before it, which determines the result |
| ById.RemoveIdempotent | src/components/Phrases.tsx:189-194 | deleting the same id twice is deleting it once |
| ById.UpdateView | src/components/Phrases.tsx:245-256 | an accepted edit changes exactly the entries with the id in both lists, and leaves the search flag and the notice alone |
| ById.DeleteFromView | src/components/Task.tsx:366-381 | both lists lose exactly the id and keep the rest in order, the back button hides iff no result is left, and the notice is the empty-list text iff no item is left, empty otherwise |
| ById.Update | src/components/Phrases.tsx:245-256 | exactly the elements with the id are changed, and by the given update |
| Text.Truncate | src/components/Home.tsx:580-582 | a string longer than the limit becomes its prefix of that length and "...", others stay |
| Text.TruncateIdempotent | src/components/Phrases.tsx:445-447 | a shortened title is at most three characters over the limit, and shortening it again changes nothing |
| Text.NumberOf | src/components/Goals.tsx:60 | `Number` gives a number iff the string is all decimal digits (the empty string included) |
| Text.NatToStringRoundTrip | src/components/Goals.tsx:60-72 | `Number` of a stored `toString` gives the number back |
| Validation.UsernameError | src/utils/validations.ts:2-4 | an empty name is in error, and a name in error starts and ends with white space or a line terminator |
| Validation.PasswordError | src/utils/validations.ts:6-8 | a password is in error iff the same string would be in error as a name, so a password in error starts and ends with white space or a line terminator |
| Validation.BlankIffAllTrimmed | src/utils/validations.ts:2-8 | a field is in error iff every character is white space or a line terminator; the password check agrees with the username check; the empty field is in error |
| Validation.TrimSegment | src/utils/validations.ts:3 | `trim` leaves the one segment with only blanks around it and no blank at either of its ends |
| Validation.TrimIdempotent | src/utils/validations.ts:3 | what `trim` leaves has no blank at either end, and trimming again changes nothing |
| Themes.LoadTheme | src/App.tsx:45-48 | a missing or empty saved theme loads as "default", any other value as it is |
| Themes.Toggle | src/App.tsx:56-59 | the toggled theme is in the list, and an unlisted theme toggles to "default" |
| Themes.StepIsModulo | src/App.tsx:57-58 | the step is the element at `(indexOf + 1) % length` |
| Themes.ThemesDistinct | src/App.tsx:16-37 | the twenty themes are distinct |
| Themes.ToggleStep | src/App.tsx:56-59 | from theme i the toggle goes to theme i + 1, and from the last to the first |
| Themes.TwentyToggles | src/App.tsx:16-37 | twenty toggles bring back any listed theme, and any theme after its first toggle |
| Themes.FullTurn | src/App.tsx:56-59 | in a list of distinct names, as many steps as the list is long bring back any listed name |

## Left out

- **Side effects.** Network calls, storage, audio, vibration, DOM and timers are not modelled. The model applies the pure list updates that follow an accepted server answer. Stored flags are a `Store` value or a `set` of ids. A timer tick is a single function call.
- **`Intl` and `Date` are not modelled.**
  - Time-zone resolution and `Date` parsing are not modelled. Instants and day numbers are taken as computed integers.
  - `start_date` is taken to be in canonical ISO form.
  - The `YYYY-MM-DD` prefix of `end_date` is a day number.
  - The start and end times of a task are already-read hour and minute numbers. `formatHour` alone reads the raw string.
- **`Number` and `parseInt`** are read only on the strings the forms and dates produce.
  - `Text.NumberOf` reads strings of ASCII digits, and the empty string as 0. Signs, blanks, decimals and exponents read as NaN, although JavaScript's `Number` reads them.
  - `DateFormat.ParseInt` reads the leading ASCII digits, as `parseInt` does ("12.5" gives 12), and NaN when the piece does not start with a digit. Leading blanks and signs, which `parseInt` skips or reads, give NaN here.
- DateFormat.ParseInt: a `0x` or `0X` prefix is not special. The model reads "0x1A" and "0x" as 0, while `parseInt` reads them as 26 and NaN. The pieces of a `YYYY-MM-DD` date never carry this prefix.
- **Character counts.** Lengths are counted in characters, not UTF-16 units. This matters only for the 25- and 225-character title cuts.
- **Goal progress** is an integer, so fractional `current_value` is not modelled.
- **One instant for the task list.** The sort and the labels read one instant `now`. The source reads the clock again inside every `isTaskExpired` call (`Task.tsx:635`), apart from the sort's `nowUser` (`Task.tsx:658`). The model treats those readings as the same instant, which they are up to the milliseconds a render takes.
- **The goal-message generator** works at one fixed instant `now` in milliseconds, and its filters read integer instants.
- **`Math.random`.** The unit message chosen is an index parameter (`picks`). The shuffle is any permutation of the deduplicated list, stated by `IsOutput`. The random home and phrase messages are not modelled.
- **`Themes.Toggle`** is written as a case split on the last index. `Themes.StepIsModulo` proves it equal to the source's modulo form.
- **`GoalMessages` lemmas.** They are stated for any unit table without a repeated unit. `Units` is the application's table, and `GoalMessages.UnitsDistinct` proves it qualifies.
- TaskView.Render: only the branch without search results is modelled (`orderedTasks`, `Task.tsx:1006`). While a search has results (`Task.tsx:920-921`), the page shows them in the server's order with no section titles. That branch only maps over the list, so it has no ordering or title decision to model.
- **Task list state.** The list operations are stated on one list, or on a `View` (list, search results, search flag, notice). The modal and selection state around them is not modelled.
- **Copies in `Home.tsx`.** Its second copy of the context message (`Home.tsx:395-513`) and its own `getDayMoment` and `getGreeting` are not modelled separately, since they match `useHomeMessages.tsx` and `greetings.ts`.
- **Forms, routes and presentation.** Form modals, login and registration submission, route guards and presentation-only components are left out.

## Findings

| source | as written | input that shows it | evidently intended | confidence | as-written member | corrected member |
|---|---|---|---|---|---|---|
| src/components/Task.tsx:675-682 | the sort ranks a task as future when its start instant is after now, while the label (lines 1010-1011, 1047) calls it future only when its UTC day is after today's | a user at UTC-5 at 20:00 on day 1 (already day 2 in UTC) with a pending task starting at 00:00 local on day 2, a task in progress and a pending task started on day 1: the first is ranked future but labelled "Tareas de hoy", so the list prints "Tareas de hoy", "En progreso", "Tareas de hoy" | each section title printed once, tasks grouped by their label | not executed | TaskView.HeaderRepeatsAsWritten | TaskView.RenderFixedHeadersUnique |
