/** The rendered task list: each task of the ordered list gets a section label
    by a first-match chain, and a section title is printed before a task when
    its label differs from the label of the task rendered just before it.

    The label's "future" test compares UTC day strings, while the sort's
    "future" rank compares instants; the two can disagree, and then a section
    title is printed twice (see `HeaderRepeatsAsWritten`). `RenderFixed` sorts
    by the rank of the label itself and prints every title at most once. */
module TaskView {
  import opened Wrappers
  import opened Clock
  import opened Tasks
  import opened TaskOrder

  datatype Section = Overdue | Future | Ongoing | Today | Done | Unlabelled

  /** The title printed for a section; a task nothing matched has the empty
      label. */
  function Title(s: Section): (r: string)
    ensures r == "" <==> s == Unlabelled
  {
    match s
    case Overdue => "Tareas vencidas"
    case Future => "Tareas futuras"
    case Ongoing => "En progreso"
    case Today => "Tareas de hoy"
    case Done => "Completadas"
    case Unlabelled => ""
  }

  /** The label test: the UTC day of the start is after today's UTC day. */
  predicate StartsAfterToday(t: Task, now: int, utcOffset: int) {
    IsoDay(t.start, utcOffset) > IsoDay(now, utcOffset)
  }

  /** The section-label chain; the first test that holds decides. */
  function SectionOf(t: Task, now: int, utcOffset: int): (s: Section)
    ensures t.status != Other ==> Title(s) != ""
  {
    if IsExpired(t, now) then Overdue
    else if StartsAfterToday(t, now, utcOffset) then Future
    else if t.status == InProgress then Ongoing
    else if t.status == Pending && IsoDay(t.start, utcOffset) <= IsoDay(now, utcOffset) then Today
    else if t.status == Completed then Done
    else Unlabelled
  }

  /** Each label, stated as the condition under which a task receives it. */
  lemma SectionRule(t: Task, now: int, utcOffset: int)
    ensures SectionOf(t, now, utcOffset) == Overdue <==> IsExpired(t, now)
    ensures SectionOf(t, now, utcOffset) == Future <==>
      !IsExpired(t, now) && StartsAfterToday(t, now, utcOffset)
    ensures SectionOf(t, now, utcOffset) == Ongoing <==>
      !IsExpired(t, now) && !StartsAfterToday(t, now, utcOffset) && t.status == InProgress
    ensures SectionOf(t, now, utcOffset) == Today <==>
      !IsExpired(t, now) && !StartsAfterToday(t, now, utcOffset) && t.status == Pending
    ensures SectionOf(t, now, utcOffset) == Done <==>
      !StartsAfterToday(t, now, utcOffset) && t.status == Completed
    ensures SectionOf(t, now, utcOffset) == Unlabelled <==>
      !IsExpired(t, now) && !StartsAfterToday(t, now, utcOffset) && t.status == Other
  {
  }

  /** The rank `getSectionOrder` gives to the tasks of each section. */
  function RankOf(s: Section): nat {
    match s
    case Today => 0
    case Ongoing => 1
    case Future => 2
    case Overdue => 3
    case Done => 4
    case Unlabelled => 5
  }

  /** A task labelled future is also ranked future: a later UTC day means a
      later instant. */
  lemma FutureLabelHasFutureRank(t: Task, now: int, utcOffset: int)
    requires SectionOf(t, now, utcOffset) == Future
    ensures Rank(t, now) == 2
  {
    if t.start <= now {
      IsoDayMonotone(t.start, now, utcOffset);
    }
  }

  /** Label and rank agree on every task for which the two future tests agree. */
  lemma RankMatchesSection(t: Task, now: int, utcOffset: int)
    requires t.start > now <==> StartsAfterToday(t, now, utcOffset)
    ensures Rank(t, now) == RankOf(SectionOf(t, now, utcOffset))
  {
  }

  /** `showTitle = section !== lastSection; lastSection = section`, run along
      the rendered titles from `lastSection = last`. */
  function HeaderFlags(titles: seq<string>, last: Option<string>): (r: seq<bool>)
    ensures |r| == |titles|
    ensures |titles| > 0 ==> (r[0] <==> last != Some(titles[0]))
    ensures forall i :: 0 < i < |titles| ==> (r[i] <==> titles[i] != titles[i - 1])
    decreases |titles|
  {
    if |titles| == 0 then []
    else [last != Some(titles[0])] + HeaderFlags(titles[1..], Some(titles[0]))
  }

  function CountTrue(bs: seq<bool>): nat {
    if |bs| == 0 then 0 else (if bs[0] then 1 else 0) + CountTrue(bs[1..])
  }

  /** One entry per maximal run of equal adjacent titles. */
  function Runs(s: seq<string>): (r: seq<string>)
    ensures |r| <= |s|
    ensures |s| > 0 ==> |r| > 0 && r[0] == s[0]
    ensures forall i :: 0 < i < |r| ==> r[i] != r[i - 1]
    decreases |s|
  {
    if |s| <= 1 then s
    else if s[0] == s[1] then Runs(s[1..])
    else [s[0]] + Runs(s[1..])
  }

  lemma {:induction false} HeaderFlagsCount(s: seq<string>, last: Option<string>)
    ensures CountTrue(HeaderFlags(s, last)) + (if |s| > 0 && last == Some(s[0]) then 1 else 0)
      == |Runs(s)|
    decreases |s|
  {
    if |s| > 0 {
      var flags := HeaderFlags(s, last);
      assert flags[1..] == HeaderFlags(s[1..], Some(s[0]));
      HeaderFlagsCount(s[1..], Some(s[0]));
    }
  }

  /** The number of section titles printed is the number of maximal runs of
      equal labels; the first task always gets one, since `lastSection` starts
      as `null`. */
  lemma HeaderCountIsRuns(titles: seq<string>)
    ensures CountTrue(HeaderFlags(titles, None)) == |Runs(titles)|
    ensures |titles| > 0 ==> HeaderFlags(titles, None)[0]
  {
    HeaderFlagsCount(titles, None);
  }

  /** One rendered task: its label and whether its section title precedes it. */
  datatype Row = Row(task: Task, section: Section, header: bool)

  lemma TitleInjective(a: Section, b: Section)
    ensures Title(a) == Title(b) <==> a == b
  {
  }

  /** Labels and title flags over an already ordered list. */
  function Label(sorted: seq<Task>, now: int, utcOffset: int): (rows: seq<Row>)
    ensures |rows| == |sorted|
    ensures forall i :: 0 <= i < |rows| ==>
      rows[i].task == sorted[i] && rows[i].section == SectionOf(sorted[i], now, utcOffset)
    ensures |rows| > 0 ==> rows[0].header
    ensures forall i :: 0 < i < |rows| ==>
      (rows[i].header <==> rows[i].section != rows[i - 1].section)
  {
    var sections := seq(|sorted|, i requires 0 <= i < |sorted| => SectionOf(sorted[i], now, utcOffset));
    var titles := seq(|sorted|, i requires 0 <= i < |sorted| => Title(sections[i]));
    var flags := HeaderFlags(titles, None);
    var rows := seq(|sorted|, i requires 0 <= i < |sorted| => Row(sorted[i], sections[i], flags[i]));
    forall i | 0 < i < |rows|
      ensures rows[i].header <==> rows[i].section != rows[i - 1].section
    {
      assert rows[i].header == flags[i] && rows[i].section == sections[i];
      assert rows[i - 1].section == sections[i - 1];
      assert flags[i] <==> titles[i] != titles[i - 1];
      assert titles[i] == Title(sections[i]) && titles[i - 1] == Title(sections[i - 1]);
      TitleInjective(sections[i], sections[i - 1]);
    }
    rows
  }

  /** The list as the page renders it. */
  function Render(tasks: seq<Task>, now: int, utcOffset: int): (rows: seq<Row>)
    ensures |rows| == |tasks|
    ensures multiset(seq(|rows|, i requires 0 <= i < |rows| => rows[i].task)) == multiset(tasks)
    ensures forall i, j :: 0 <= i < j < |rows| ==> Rank(rows[i].task, now) <= Rank(rows[j].task, now)
    ensures seq(|rows|, i requires 0 <= i < |rows| => rows[i].task) == OrderTasks(tasks, now)
    ensures forall i :: 0 <= i < |rows| ==> rows[i].section == SectionOf(rows[i].task, now, utcOffset)
    ensures |rows| > 0 ==> rows[0].header
    ensures forall i :: 0 < i < |rows| ==>
      (rows[i].header <==> rows[i].section != rows[i - 1].section)
  {
    var sorted := OrderTasks(tasks, now);
    var rows := Label(sorted, now, utcOffset);
    assert seq(|rows|, i requires 0 <= i < |rows| => rows[i].task) == sorted;
    rows
  }

  // A concrete list west of Greenwich (UTC-5) at 20:00 on day 1, when the UTC
  // date is already day 2: a pending task starting at midnight of day 2 is
  // ranked future by the sort but labelled "Tareas de hoy".
  const WestOffset: int := -18000
  const Evening: int := At(1, 20, 0, 0)
  const StartsTomorrow: Task := Task(1, "a", At(2, 0, 0, 0), 2, None, None, Pending, "low")
  const Started: Task := Task(2, "b", At(1, 0, 0, 0), 2, None, None, InProgress, "low")
  const Waiting: Task := Task(3, "c", At(1, 0, 0, 0), 2, None, None, Pending, "low")

  /** A permutation of three tasks of ranks 2, 1 and 0 that keeps ranks in
      non-decreasing order lists them in the reverse order. */
  lemma ThreeByRank(order: seq<Task>, a: Task, b: Task, c: Task, rank: Task -> nat)
    requires multiset(order) == multiset([a, b, c])
    requires rank(a) == 2 && rank(b) == 1 && rank(c) == 0
    requires forall i, j :: 0 <= i < j < |order| ==> rank(order[i]) <= rank(order[j])
    ensures order == [c, b, a]
  {
    assert |order| == 3 by {
      assert |multiset(order)| == |order|;
    }
    assert forall x :: x in order ==> x == a || x == b || x == c by {
      forall x | x in order ensures x == a || x == b || x == c {
        assert x in multiset(order);
      }
    }
    assert a in multiset(order) && b in multiset(order) && c in multiset(order);
    assert a in order && b in order && c in order;
  }

  /** As written, the title "Tareas de hoy" is printed twice for this list. */
  lemma HeaderRepeatsAsWritten()
    ensures var rows := Render([StartsTomorrow, Started, Waiting], Evening, WestOffset);
      |rows| == 3 && rows[0].header && rows[2].header
      && rows[0].section == Today && rows[2].section == Today
  {
    ExampleOrder();
    ExampleSections();
    var rows := Label([Waiting, Started, StartsTomorrow], Evening, WestOffset);
    assert rows[1].section == Ongoing;
  }

  /** The sort puts the example's tasks in reverse: ranks 0, 1 and 2. */
  lemma ExampleOrder()
    ensures OrderTasks([StartsTomorrow, Started, Waiting], Evening) == [Waiting, Started, StartsTomorrow]
  {
    var order := OrderTasks([StartsTomorrow, Started, Waiting], Evening);
    assert Rank(StartsTomorrow, Evening) == 2;
    assert Rank(Started, Evening) == 1;
    assert Rank(Waiting, Evening) == 0;
    ThreeByRank(order, StartsTomorrow, Started, Waiting, RankAt(Evening));
  }

  /** The labels of the example's tasks: the task ranked future is labelled
      as due today. */
  lemma ExampleSections()
    ensures SectionOf(Waiting, Evening, WestOffset) == Today
    ensures SectionOf(Started, Evening, WestOffset) == Ongoing
    ensures SectionOf(StartsTomorrow, Evening, WestOffset) == Today
  {
  }

  /** The rank the sections are evidently meant to be sorted by: the rank of
      the task's own label. */
  function FixedRankAt(now: int, utcOffset: int): Task -> nat {
    t => RankOf(SectionOf(t, now, utcOffset))
  }

  /** The list sorted by the rank of its labels; every other step as before. */
  function RenderFixed(tasks: seq<Task>, now: int, utcOffset: int): (rows: seq<Row>)
    ensures |rows| == |tasks|
    ensures multiset(seq(|rows|, i requires 0 <= i < |rows| => rows[i].task)) == multiset(tasks)
    ensures forall i :: 0 <= i < |rows| ==> rows[i].section == SectionOf(rows[i].task, now, utcOffset)
    ensures forall i, j :: 0 <= i < j < |rows| ==> RankOf(rows[i].section) <= RankOf(rows[j].section)
    ensures forall i, j :: 0 <= i < j < |rows| && rows[i].section == rows[j].section ==>
      rows[i].task.start <= rows[j].task.start
    ensures |rows| > 0 ==> rows[0].header
    ensures forall i :: 0 < i < |rows| ==>
      (rows[i].header <==> rows[i].section != rows[i - 1].section)
  {
    var sorted := Sort(tasks, FixedRankAt(now, utcOffset));
    var rows := Label(sorted, now, utcOffset);
    assert seq(|rows|, i requires 0 <= i < |rows| => rows[i].task) == sorted;
    FixedSortRanks(sorted, now, utcOffset);
    rows
  }

  /** A list ordered by the label-rank key has non-decreasing label ranks. */
  lemma FixedSortRanks(sorted: seq<Task>, now: int, utcOffset: int)
    requires Ordered(sorted, FixedRankAt(now, utcOffset))
    ensures forall i, j :: 0 <= i < j < |sorted| ==>
      RankOf(SectionOf(sorted[i], now, utcOffset)) <= RankOf(SectionOf(sorted[j], now, utcOffset))
    ensures forall i, j :: 0 <= i < j < |sorted| && SectionOf(sorted[i], now, utcOffset) == SectionOf(sorted[j], now, utcOffset) ==>
      sorted[i].start <= sorted[j].start
  {
    forall i, j | 0 <= i < j < |sorted|
      ensures RankOf(SectionOf(sorted[i], now, utcOffset)) <= RankOf(SectionOf(sorted[j], now, utcOffset))
      ensures SectionOf(sorted[i], now, utcOffset) == SectionOf(sorted[j], now, utcOffset) ==>
        sorted[i].start <= sorted[j].start
    {
      assert KeyLe(sorted[i], sorted[j], FixedRankAt(now, utcOffset));
    }
  }

  /** In rows ordered by section rank whose headers mark the section changes,
      two headers never carry the same section. */
  lemma HeadersUniqueWhenRanked(rows: seq<Row>, i: int, j: int)
    requires forall a, b :: 0 <= a < b < |rows| ==> RankOf(rows[a].section) <= RankOf(rows[b].section)
    requires forall a :: 0 < a < |rows| ==> (rows[a].header <==> rows[a].section != rows[a - 1].section)
    requires 0 <= i < j < |rows| && rows[j].header
    ensures rows[i].section != rows[j].section
  {
    assert RankOf(rows[j - 1].section) < RankOf(rows[j].section) by {
      assert rows[j].section != rows[j - 1].section;
      assert RankOf(rows[j - 1].section) <= RankOf(rows[j].section);
    }
    assert RankOf(rows[i].section) <= RankOf(rows[j - 1].section);
  }

  /** Sorted by the rank of its labels, the list prints each section title at
      most once. */
  lemma RenderFixedHeadersUnique(tasks: seq<Task>, now: int, utcOffset: int, i: int, j: int)
    requires 0 <= i < j < |RenderFixed(tasks, now, utcOffset)|
    requires RenderFixed(tasks, now, utcOffset)[i].header
    requires RenderFixed(tasks, now, utcOffset)[j].header
    ensures RenderFixed(tasks, now, utcOffset)[i].section != RenderFixed(tasks, now, utcOffset)[j].section
  {
    HeadersUniqueWhenRanked(RenderFixed(tasks, now, utcOffset), i, j);
  }

  /** Which value a date cell shows: the calendar date, or the clock time. */
  datatype Cell = DateCell | HourCell

  /** The start and end cells: a task with a time in one of the listed
      sections alternates with `showDate`; every other task shows the date. */
  function DisplayCell(hasTime: bool, section: Section, showDate: bool): (c: Cell)
    ensures c == HourCell <==> hasTime && !showDate && section !in {Done, Unlabelled}
  {
    if hasTime then
      if Title(section) in ["Tareas vencidas", "Tareas de hoy", "Pendientes", "En progreso", "Tareas futuras"] then
        if showDate then DateCell else HourCell
      else DateCell
    else DateCell
  }
}
