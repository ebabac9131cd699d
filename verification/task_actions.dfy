/** What the task page does to its list besides ordering it: the automatic
    start of pending tasks whose time window has begun, the status advance of
    the check box, the list edits applied after the server answers, the
    priority vocabulary and the 12-hour clock format. */
module TaskActions {
  import opened Wrappers
  import opened Clock
  import opened Text
  import opened Tasks
  import ById
  import DateFormat

  /** The tick's test: a pending task with both times whose window
      `startDate + startTime .. startDate + endTime` (seconds 0) contains now.
      The window's day is the `YYYY-MM-DD` prefix of `start_date`, the UTC day
      of its instant. */
  predicate AutoStartEligible(t: Task, now: int, utcOffset: int)
    ensures AutoStartEligible(t, now, utcOffset) ==>
      && t.status == Pending && t.startTime.Some? && t.endTime.Some?
      && t.startTime.value.hour * 60 + t.startTime.value.minute <= t.endTime.value.hour * 60 + t.endTime.value.minute
  {
    && t.status == Pending
    && t.startTime.Some?
    && t.endTime.Some?
    && var day := IsoDay(t.start, utcOffset);
       At(day, t.startTime.value.hour, t.startTime.value.minute, 0) <= now
       <= At(day, t.endTime.value.hour, t.endTime.value.minute, 0)
  }

  /** One tick: the list it hands back, and the ids it asks the server to
      start, in list order. */
  datatype Tick = Tick(tasks: seq<Task>, requests: seq<int>)

  /** The 50-second tick: every task is handed back as it was, and a start
      request goes out for exactly the eligible ones. */
  function AutoStartTick(tasks: seq<Task>, now: int, utcOffset: int): (r: Tick)
    ensures r.tasks == tasks
    ensures |r.requests| <= |tasks|
    ensures forall id :: id in r.requests <==>
      exists t :: t in tasks && t.id == id && AutoStartEligible(t, now, utcOffset)
    decreases |tasks|
  {
    if |tasks| == 0 then Tick([], [])
    else
      var rest := AutoStartTick(tasks[1..], now, utcOffset);
      var t := tasks[0];
      assert tasks == [t] + tasks[1..];
      Tick([t] + rest.tasks, (if AutoStartEligible(t, now, utcOffset) then [t.id] else []) + rest.requests)
  }

  /** The server's copy of a task replaces every task with its id, in the list
      and in the search results alike. */
  function ApplyServerTask(tasks: seq<Task>, updated: Task): (r: seq<Task>)
    ensures |r| == |tasks|
    ensures forall i :: 0 <= i < |r| ==> r[i] == if tasks[i].id == updated.id then updated else tasks[i]
  {
    ById.Update(tasks, (t: Task) => t.id, updated.id, (t: Task) => updated)
  }

  /** Once the server's answer to a start request is applied, no task with that
      id is eligible again: a task starts automatically at most once. */
  lemma AutoStartOnce(tasks: seq<Task>, updated: Task, now: int, utcOffset: int)
    requires updated.status == InProgress
    ensures forall t :: t in ApplyServerTask(tasks, updated) && t.id == updated.id ==>
      !AutoStartEligible(t, now, utcOffset)
    ensures forall id :: id in AutoStartTick(ApplyServerTask(tasks, updated), now, utcOffset).requests ==>
      id != updated.id
  {
    var r := ApplyServerTask(tasks, updated);
    forall t | t in r && t.id == updated.id
      ensures !AutoStartEligible(t, now, utcOffset)
    {
      var i :| 0 <= i < |r| && r[i] == t;
    }
  }

  /** `getNextStatus`. */
  function NextStatus(s: Status): (n: Status)
    ensures n == InProgress <==> s == Pending
    ensures n != Pending && n != Other
  {
    match s
    case Pending => InProgress
    case InProgress => Completed
    case _ => Completed
  }

  /** How far a status is along pending, in progress, completed. */
  function Level(s: Status): nat {
    match s
    case Pending => 0
    case InProgress => 1
    case Completed => 2
    case Other => 0
  }

  /** The advance moves one step along pending, in progress, completed, and
      two clicks take a pending task to completed. */
  lemma NextStatusAdvances(s: Status)
    requires s == Pending || s == InProgress
    ensures Level(NextStatus(s)) == Level(s) + 1
    ensures NextStatus(NextStatus(Pending)) == Completed
  {
  }

  /** The key every by-id edit of the task page matches on. */
  function IdOf(t: Task): int {
    t.id
  }

  /** `handleCheckboxChange` after a successful update: a click on a completed
      task changes nothing; otherwise every task with the clicked id moves to
      the next status, in the list and in the search results alike, and
      nothing else changes. */
  function CheckboxChange(v: ById.View<Task>, id: int, current: Status): (r: ById.View<Task>)
    ensures current == Completed ==> r == v
    ensures |r.items| == |v.items| && |r.results| == |v.results|
    ensures forall i :: 0 <= i < |v.items| ==>
      r.items[i] == if v.items[i].id == id && current != Completed
        then v.items[i].(status := NextStatus(current)) else v.items[i]
    ensures forall i :: 0 <= i < |v.results| ==>
      r.results[i] == if v.results[i].id == id && current != Completed
        then v.results[i].(status := NextStatus(current)) else v.results[i]
    ensures r.searching == v.searching && r.notice == v.notice
  {
    if current == Completed then v
    else ById.UpdateView(v, IdOf, id, (t: Task) => t.(status := NextStatus(current)))
  }

  /** `handleDeleteTask` after the server accepts: the list and the search
      results both lose the id and keep the order of the rest, the back button
      hides once no search result is left, and an emptied list says that the
      list is empty. */
  function DeleteTask(v: ById.View<Task>, id: int): (r: ById.View<Task>)
    ensures forall t :: t in r.items <==> t in v.items && t.id != id
    ensures forall t :: t in r.results <==> t in v.results && t.id != id
    ensures r.searching <==> v.searching && exists t :: t in v.results && t.id != id
    ensures r.notice == "Parece que tu lista está vacía" <==> forall t :: t in v.items ==> t.id == id
    ensures r.notice != "Parece que tu lista está vacía" ==> r.notice == ""
    ensures ById.KeepsOrder(r.items, v.items, IdOf, id) && ById.KeepsOrder(r.results, v.results, IdOf, id)
  {
    ById.DeleteFromView(v, IdOf, id, "Parece que tu lista está vacía")
  }

  /** The edit form's priority after a task is selected (lines 101-108): a
      task with a priority gets its Spanish word; a task whose priority is
      empty or null (`""` here) leaves the form's previous value `prev`, which
      starts as the English "low" (line 77). */
  function PriorityToSpanish(p: string, prev: string): (s: string)
    ensures p != "" ==> s in ["alta", "media", "baja"]
    ensures p != "" && p !in ["high", "medium"] ==> s == "baja"
    ensures p == "" ==> s == prev
  {
    if p == "" then prev
    else if p == "high" then "alta" else if p == "medium" then "media" else "baja"
  }

  /** `convertPriorityToEnglish`: any value outside the three Spanish words
      is "low". */
  function PriorityToEnglish(s: string): (p: string)
    ensures p in ["high", "medium", "low"]
    ensures s !in ["alta", "media", "baja"] ==> p == "low"
  {
    match s
    case "alta" => "high"
    case "media" => "medium"
    case "baja" => "low"
    case _ => "low"
  }

  /** The badge `getPriorityData` picks for a priority. */
  datatype Badge = Urgent | Important | Mild {
    function Label(): string {
      match this
      case Urgent => "Urgente"
      case Important => "Importante"
      case Mild => "Leve"
    }
  }

  /** `getPriorityData`: an unknown priority shows the badge of "low". */
  function PriorityData(p: string): (b: Badge)
    ensures b == Urgent <==> p == "high"
    ensures b == Important <==> p == "medium"
  {
    var valid := if p == "high" || p == "medium" || p == "low" then p else "low";
    match valid
    case "high" => Urgent
    case "medium" => Important
    case _ => Mild
  }

  /** Opening the edit form and saving it keeps a known priority, and turns an
      unknown one into "low", the value whose badge it was already shown with.
      A task without priority is saved with the English of whatever the form
      held before; on a freshly opened page that is "low". */
  lemma PriorityRoundTrip(p: string, prev: string)
    ensures p in ["high", "medium", "low"] ==> PriorityToEnglish(PriorityToSpanish(p, prev)) == p
    ensures p != "" && p !in ["high", "medium", "low"] ==>
      PriorityToEnglish(PriorityToSpanish(p, prev)) == "low" && PriorityData(p) == PriorityData("low")
    ensures p == "" ==> PriorityToEnglish(PriorityToSpanish(p, prev)) == PriorityToEnglish(prev)
    ensures PriorityToEnglish(PriorityToSpanish("", "low")) == "low"
  {
  }

  /** Choosing a Spanish priority and reading it back gives the same choice,
      whatever the form held before. */
  lemma SpanishRoundTrip(s: string, prev: string)
    requires s in ["alta", "media", "baja"]
    ensures PriorityToSpanish(PriorityToEnglish(s), prev) == s
  {
  }

  /** The hour shown on a 12-hour clock: 0 and 12 show as 12. */
  function Hour12(h: nat): (r: nat)
    ensures 1 <= r <= 12
    ensures r % 12 == h % 12
  {
    if h % 12 == 0 then 12 else h % 12
  }

  /** The hour and minute of `hourStr.split(":").map(Number)`; `None` when
      either is NaN (a missing minute is `undefined`, which is NaN too). */
  function ParseClock(s: string): Option<(nat, nat)> {
    var parts := Split(s, ':');
    var hour := NumberOf(parts[0]);
    var minute := if |parts| >= 2 then NumberOf(parts[1]) else None;
    if hour.None? || minute.None? then None else Some((hour.value, minute.value))
  }

  /** `formatHour`: "--:--" for a missing, empty or non-numeric value,
      otherwise `h:mm AM` / `h:mm PM`. */
  function FormatHour(hourStr: Option<string>): (r: string)
    ensures hourStr.None? || hourStr == Some("") ==> r == "--:--"
  {
    match hourStr
    case None => "--:--"
    case Some(s) =>
      if s == "" then "--:--"
      else match ParseClock(s)
        case None => "--:--"
        case Some((h, m)) => ClockText(h, m)
  }

  /** `${hour12}:${minute.toString().padStart(2, "0")} ${ampm}` */
  function ClockText(h: nat, m: nat): string {
    NatToString(Hour12(h)) + ":" + PadTwo(NatToString(m)) + " " + (if h >= 12 then "PM" else "AM")
  }

  /** The clock text names the 12-hour hour, at least two minute digits, and
      ends in "AM" exactly before noon. */
  lemma ClockTextParts(h: nat, m: nat)
    ensures var r := ClockText(h, m);
      && r[..|NatToString(Hour12(h))| + 1] == NatToString(Hour12(h)) + ":"
      && (r[|r| - 2..] == "AM" <==> h < 12)
      && |r| >= |NatToString(Hour12(h))| + 6
  {
    ClockTextHead(h, m);
    ClockTextTail(h, m);
  }

  lemma ClockTextHead(h: nat, m: nat)
    ensures var r := ClockText(h, m);
      && r[..|NatToString(Hour12(h))| + 1] == NatToString(Hour12(h)) + ":"
      && |r| >= |NatToString(Hour12(h))| + 6
  {
    ClockLayout(NatToString(Hour12(h)), PadTwo(NatToString(m)), if h >= 12 then "PM" else "AM");
  }

  lemma ClockTextTail(h: nat, m: nat)
    ensures var r := ClockText(h, m); r[|r| - 2..] == "AM" <==> h < 12
  {
    ClockLayout(NatToString(Hour12(h)), PadTwo(NatToString(m)), if h >= 12 then "PM" else "AM");
    assert "PM"[0] != "AM"[0];
  }

  /** Where the parts of `a:b c` stand. */
  lemma ClockLayout(a: string, b: string, c: string)
    ensures var r := a + ":" + b + " " + c;
      && |r| == |a| + |b| + |c| + 2
      && r[..|a| + 1] == a + ":"
      && r[|r| - |c|..] == c
  {
    var r := a + ":" + b + " " + c;
    assert r == (a + ":") + (b + " " + c);
    assert r == (a + ":" + b + " ") + c;
  }

  /** Splitting `H:M` or `H:M:S` on ":" and reading both numbers gives the
      values of H and M, padded with zeros or not. */
  lemma ParseClockOfTime(hs: string, ms: string, seconds: string)
    requires AllDigits(hs) && AllDigits(ms)
    requires seconds == "" || seconds[0] == ':'
    ensures ParseClock(hs + ":" + ms + seconds) == Some((DigitsValue(hs), DigitsValue(ms)))
  {
    NoColon(hs);
    NoColon(ms);
    SplitClock(hs, ms, seconds);
  }

  /** A digit string holds no ":". */
  lemma NoColon(s: string)
    requires AllDigits(s)
    ensures ':' !in s
  {
    forall i | 0 <= i < |s|
      ensures s[i] != ':'
    {
      assert IsDigit(s[i]);
    }
  }

  /** Splitting `H:M` or `H:M:S` on ":" gives H first and M second. */
  lemma SplitClock(hs: string, ms: string, seconds: string)
    requires ':' !in hs && ':' !in ms
    requires seconds == "" || seconds[0] == ':'
    ensures var parts := Split(hs + ":" + ms + seconds, ':');
      |parts| >= 2 && parts[0] == hs && parts[1] == ms
  {
    var s := hs + ":" + ms + seconds;
    assert s == hs + [':'] + (ms + seconds);
    SplitAt(hs, ':', ms + seconds);
    if seconds == "" {
      assert ms + seconds == ms;
      SplitWithout(ms, ':');
    } else {
      assert ms + seconds == ms + [':'] + seconds[1..];
      SplitAt(ms, ':', seconds[1..]);
    }
  }

  /** A time `H:M` or `H:M:S` of digits is shown as the 12-hour hour, the
      zero-padded minute and "AM" or "PM"; the seconds are ignored. */
  lemma FormatHourOfTime(hs: string, ms: string, seconds: string)
    requires AllDigits(hs) && AllDigits(ms)
    requires seconds == "" || seconds[0] == ':'
    ensures FormatHour(Some(hs + ":" + ms + seconds)) == ClockText(DigitsValue(hs), DigitsValue(ms))
  {
    ParseClockOfTime(hs, ms, seconds);
  }

  /** The stored form `HH:mm` (or `HH:mm:ss`), zero-padded, shows as its
      hour and minute: "09:05" shows as "9:05 AM". */
  lemma FormatHourPadded(h: nat, m: nat, seconds: string)
    requires seconds == "" || seconds[0] == ':'
    ensures FormatHour(Some(PadTwo(NatToString(h)) + ":" + PadTwo(NatToString(m)) + seconds)) == ClockText(h, m)
  {
    PaddedValue(h);
    PaddedValue(m);
    FormatHourOfTime(PadTwo(NatToString(h)), PadTwo(NatToString(m)), seconds);
  }

  /** A zero-padded rendering reads back as the number. */
  lemma PaddedValue(n: nat)
    ensures AllDigits(PadTwo(NatToString(n))) && DigitsValue(PadTwo(NatToString(n))) == n
  {
    DateFormat.ParsePadded(n);
    DateFormat.DigitPrefixAll(PadTwo(NatToString(n)));
  }

  /** A value whose hour part is not a number shows "--:--". */
  lemma FormatHourRejects(s: string)
    requires s != "" && !AllDigits(Split(s, ':')[0])
    ensures FormatHour(Some(s)) == "--:--"
  {
  }
}
