/** The goal view's decisions: the colour of a progress bar, which values the
    advance input accepts, the completed and expired marks of a goal card,
    the rotating phrase and its stored index, the completion sound that plays
    once per goal and session, and the list edits after an accepted change. */
module Goals {
  import opened Wrappers
  import opened Text
  import ById

  /** A goal card: `endDate` is the `end_date` string as the server sends it. */
  datatype GoalItem = GoalItem(id: int, name: string, description: string, currentValue: int, endDate: string)

  /** The four colour bands of a progress bar. */
  datatype Band = Red | Orange | Green | Blue {
    function Level(): nat {
      match this
      case Red => 0
      case Orange => 1
      case Green => 2
      case Blue => 3
    }

    function Color(): string {
      match this
      case Red => "#FF4F4F"
      case Orange => "#FFA500"
      case Green => "#00B06E"
      case Blue => "#0096FF"
    }
  }

  /** `getProgressColor`, by band. */
  function BandOf(value: int): Band {
    if value < 40 then Red
    else if 40 <= value < 70 then Orange
    else if 70 <= value < 95 then Green
    else Blue
  }

  function ProgressColor(value: int): (c: string)
    ensures c in ["#FF4F4F", "#FFA500", "#00B06E", "#0096FF"]
  {
    BandOf(value).Color()
  }

  /** The bands split the values at 40, 70 and 95, each value in exactly one,
      and a larger value is never in a lower band. */
  lemma ProgressBands(value: int, other: int)
    ensures ProgressColor(value) == "#FF4F4F" <==> value < 40
    ensures ProgressColor(value) == "#FFA500" <==> 40 <= value < 70
    ensures ProgressColor(value) == "#00B06E" <==> 70 <= value < 95
    ensures ProgressColor(value) == "#0096FF" <==> 95 <= value
    ensures value <= other ==> BandOf(value).Level() <= BandOf(other).Level()
  {
  }

  /** The advance input's test: `Number(input)` is taken when it lies between
      the goal's current value and 100; NaN (`None`) never is. */
  predicate Accepts(current: int, input: Option<int>)
    ensures Accepts(current, input) ==> input.Some? && current <= input.value <= 100
    ensures current > 100 ==> !Accepts(current, input)
  {
    input.Some? && input.value <= 100 && input.value >= current
  }

  /** The value the input holds after one change. */
  function AdvanceInput(held: int, current: int, input: Option<int>): (r: int)
    ensures Accepts(current, input) ==> r == input.value
    ensures !Accepts(current, input) ==> r == held
  {
    if Accepts(current, input) then input.value else held
  }

  /** The value the input holds after a run of changes, starting from the
      goal's current value as the preview sets it. */
  function AdvanceInputs(held: int, current: int, inputs: seq<Option<int>>): int
    decreases |inputs|
  {
    if |inputs| == 0 then held
    else AdvanceInputs(AdvanceInput(held, current, inputs[0]), current, inputs[1..])
  }

  /** Whatever is typed, the value sent as the advance is never below the
      current progress and never above 100 unless nothing was accepted. */
  lemma {:induction false} AdvanceNeverBacktracks(held: int, current: int, inputs: seq<Option<int>>)
    requires held == current || current <= held <= 100
    ensures var r := AdvanceInputs(held, current, inputs);
      r == held || current <= r <= 100
    decreases |inputs|
  {
    if |inputs| > 0 {
      var next := AdvanceInput(held, current, inputs[0]);
      AdvanceNeverBacktracks(next, current, inputs[1..]);
    }
  }

  /** JavaScript's `<` on strings: the first differing character decides, and a
      proper prefix comes first. */
  predicate LexLess(a: string, b: string)
    decreases |a|
  {
    if |b| == 0 then false
    else if |a| == 0 then true
    else if a[0] != b[0] then a[0] < b[0]
    else LexLess(a[1..], b[1..])
  }

  lemma {:induction false} LexLessIrreflexive(a: string)
    ensures !LexLess(a, a)
    decreases |a|
  {
    if |a| > 0 {
      LexLessIrreflexive(a[1..]);
    }
  }

  lemma {:induction false} LexLessTransitive(a: string, b: string, c: string)
    requires LexLess(a, b) && LexLess(b, c)
    ensures LexLess(a, c)
    decreases |a|
  {
    if |a| > 0 && |b| > 0 && |c| > 0 && a[0] == b[0] && b[0] == c[0] {
      LexLessTransitive(a[1..], b[1..], c[1..]);
    }
  }

  /** The completed mark: progress exactly 100. */
  predicate IsCompleted(g: GoalItem)
    ensures IsCompleted(g) ==> ProgressColor(g.currentValue) == "#0096FF"
  {
    g.currentValue == 100
  }

  /** The expired mark: the date part of `end_date` sorts before today's date
      part (`today`) and the goal is not at 100. */
  predicate IsExpired(g: GoalItem, today: string)
    ensures IsExpired(g, today) ==> !IsCompleted(g)
    ensures IsExpired(g, today) ==> today != Split(g.endDate, 'T')[0]
  {
    LexLessIrreflexive(today);
    LexLess(Split(g.endDate, 'T')[0], today) && g.currentValue < 100
  }

  /** A card is never marked both completed and expired; a goal ending today
      is not expired; and once expired it stays so on later days. */
  lemma GoalMarks(g: GoalItem, today: string, later: string)
    ensures !(IsCompleted(g) && IsExpired(g, today))
    ensures !IsExpired(g, Split(g.endDate, 'T')[0])
    ensures IsExpired(g, today) && (later == today || LexLess(today, later)) ==> IsExpired(g, later)
  {
    LexLessIrreflexive(Split(g.endDate, 'T')[0]);
    if IsExpired(g, today) && LexLess(today, later) {
      LexLessTransitive(Split(g.endDate, 'T')[0], today, later);
    }
  }

  /** The rotating phrases of the goal view. */
  const Phrases: seq<string> := [
    "Las metas marcan el destino, pero los sistemas determinan el camino. Enfócate en cómo avanzas cada día, construye hábitos que te acerquen a tu objetivo y disfruta el proceso.",
    "Haga que un hábito sea insatisfactorio mirando las consecuencias de no cumplirlo.",
    "El mensaje que debes llevarte es que es importante desarrollar hábitos que funcionen para tu personalidad.",
    "Elige metas que realmente se alineen con quien eres, no con lo que los demás esperan de ti.",
    "Lo que repites cada día es en lo que te conviertes. Tus hábitos definen tu destino.",
    "Si una meta es grande, divídela en pequeños pasos que puedas lograr cada día.",
    "No dependas de la fuerza de voluntad, crea sistemas que te ayuden a mantenerte en el camino.",
    "Un hábito exitoso empieza con un compromiso pequeño: 'Hoy leeré una página', en lugar de 'Quiero leer más libros'.",
    "La motivación te ayuda a empezar, pero es el sistema lo que te mantiene avanzando.",
    "Celebra cada pequeño progreso. El éxito es el resultado de muchas pequeñas victorias acumuladas.",
    "Cambia tu enfoque de 'quiero lograr esto' a 'quiero convertirme en la persona que hace esto'."
  ]

  /** `Number(localStorage.getItem("currentPhraseIndex")) || 0`: a missing,
      empty or non-numeric value starts at 0. */
  function LoadIndex(stored: Option<string>): (i: nat)
    ensures stored.None? ==> i == 0
    ensures stored.Some? && NumberOf(stored.value).None? ==> i == 0
  {
    match stored
    case None => 0
    case Some(s) =>
      match NumberOf(s)
      case None => 0
      case Some(n) => n
  }

  /** The phrase shown for an index; past the end it is `undefined`. */
  function PhraseAt(i: nat): Option<string> {
    if i < |Phrases| then Some(Phrases[i]) else None
  }

  /** The 30-second tick: `(index + 1) % phrases.length`. */
  function NextIndex(i: nat): (r: nat)
    ensures r < |Phrases|
    ensures i + 1 < |Phrases| ==> r == i + 1
    ensures i + 1 == |Phrases| ==> r == 0
  {
    (i + 1) % |Phrases|
  }

  function Ticks(i: nat, n: nat): (r: nat)
    decreases n
  {
    if n == 0 then i else Ticks(NextIndex(i), n - 1)
  }

  /** After a tick a phrase is always shown, whatever index was stored, and
      a reload resumes at the index the tick stored. */
  lemma PhraseRotation(i: nat)
    ensures PhraseAt(NextIndex(i)).Some?
    ensures LoadIndex(Some(NatToString(NextIndex(i)))) == NextIndex(i)
  {
    NatToStringRoundTrip(NextIndex(i));
  }

  /** From a shown phrase, eleven ticks come back to it: the rotation is
      periodic with the number of phrases. */
  lemma PhraseCycle(i: nat, m: nat)
    requires i < |Phrases|
    ensures Ticks(i, |Phrases|) == i
    ensures Ticks(i, |Phrases| + m) == Ticks(i, m)
  {
    TicksAdd(i, |Phrases| - i, i);
    TicksToStart(i);
    TicksForward(0, i);
    TicksAdd(i, |Phrases|, m);
  }

  lemma {:induction false} TicksAdd(i: nat, a: nat, b: nat)
    ensures Ticks(i, a + b) == Ticks(Ticks(i, a), b)
    decreases a
  {
    if a > 0 {
      TicksAdd(NextIndex(i), a - 1, b);
      assert a + b - 1 == (a - 1) + b;
    }
  }

  /** Short of the end of the list, `n` ticks move `n` phrases on. */
  lemma {:induction false} TicksForward(i: nat, n: nat)
    requires i + n < |Phrases|
    ensures Ticks(i, n) == i + n
    decreases n
  {
    if n > 0 {
      TicksForward(i + 1, n - 1);
    }
  }

  /** From an index in range, the ticks up to the end of the list come back
      to the first phrase. */
  lemma {:induction false} TicksToStart(i: nat)
    requires i < |Phrases|
    ensures Ticks(i, |Phrases| - i) == 0
    decreases |Phrases| - i
  {
    if i + 1 < |Phrases| {
      TicksToStart(i + 1);
    }
  }

  /** The goal shown in the advance preview: its id and progress. */
  datatype Preview = Preview(id: int, currentValue: int)

  datatype Chime = Chime(play: bool, notified: set<int>)

  /** The completion effect: a goal at exactly 100 that the session has not
      celebrated yet plays the sound and is remembered. */
  function ChimeStep(notified: set<int>, p: Option<Preview>): (r: Chime)
    ensures r.play <==> p.Some? && p.value.currentValue == 100 && p.value.id !in notified
    ensures r.play ==> r.notified == notified + {p.value.id}
    ensures !r.play ==> r.notified == notified
  {
    if p.Some? && p.value.currentValue == 100 && p.value.id !in notified then Chime(true, notified + {p.value.id})
    else Chime(false, notified)
  }

  /** The ids the sound plays for over a run of effect runs, in order. */
  function Chimes(notified: set<int>, ps: seq<Option<Preview>>): seq<int>
    decreases |ps|
  {
    if |ps| == 0 then []
    else
      var c := ChimeStep(notified, ps[0]);
      (if c.play then [ps[0].value.id] else []) + Chimes(c.notified, ps[1..])
  }

  /** The effect's dependency, `selectedGoalPreview?.current_value`:
      `undefined` (`None`) while nothing is previewed. */
  function DepOf(p: Option<Preview>): (d: Option<int>)
    ensures d.Some? <==> p.Some?
    ensures p.Some? ==> d.value == p.value.currentValue
  {
    if p.Some? then Some(p.value.currentValue) else None
  }

  /** The renders at which React runs the effect: those whose dependency
      differs from the one of the render before (`dep`; the page mounts with
      no preview). */
  function EffectRuns(dep: Option<int>, ps: seq<Option<Preview>>): (r: seq<Option<Preview>>)
    ensures |r| <= |ps|
    ensures forall p :: p in r ==> p in ps
    ensures |r| > 0 ==> DepOf(r[0]) != dep
    ensures forall i :: 0 < i < |r| ==> DepOf(r[i]) != DepOf(r[i - 1])
    decreases |ps|
  {
    if |ps| == 0 then []
    else
      var rest := EffectRuns(DepOf(ps[0]), ps[1..]);
      if DepOf(ps[0]) != dep then [ps[0]] + rest else rest
  }

  /** The ids the sound plays for over a run of renders of the goal page,
      starting from dependency `dep`: the effect runs only when the previewed
      value changes. */
  function PreviewChimes(dep: Option<int>, notified: set<int>, ps: seq<Option<Preview>>): seq<int>
    decreases |ps|
  {
    if |ps| == 0 then []
    else if DepOf(ps[0]) == dep then PreviewChimes(dep, notified, ps[1..])
    else
      var c := ChimeStep(notified, ps[0]);
      (if c.play then [ps[0].value.id] else []) + PreviewChimes(DepOf(ps[0]), c.notified, ps[1..])
  }

  /** Over renders, the sound is that of the effect runs alone. */
  lemma {:induction false} PreviewChimesAreRunChimes(dep: Option<int>, notified: set<int>, ps: seq<Option<Preview>>)
    ensures PreviewChimes(dep, notified, ps) == Chimes(notified, EffectRuns(dep, ps))
    decreases |ps|
  {
    if |ps| > 0 {
      var c := ChimeStep(notified, ps[0]);
      if DepOf(ps[0]) == dep {
        PreviewChimesAreRunChimes(dep, notified, ps[1..]);
      } else {
        PreviewChimesAreRunChimes(DepOf(ps[0]), c.notified, ps[1..]);
        var runs := EffectRuns(DepOf(ps[0]), ps[1..]);
        assert EffectRuns(dep, ps) == [ps[0]] + runs;
        assert ([ps[0]] + runs)[1..] == runs;
      }
    }
  }

  /** Across the page's renders the sound still plays at most once per goal,
      never for a goal already celebrated, and only for goals shown at 100. */
  lemma PreviewChimeOnce(notified: set<int>, ps: seq<Option<Preview>>)
    ensures var cs := PreviewChimes(None, notified, ps);
      && (forall i, j :: 0 <= i < j < |cs| ==> cs[i] != cs[j])
      && (forall id :: id in cs ==> id !in notified)
      && (forall id :: id in cs ==> Some(Preview(id, 100)) in ps)
  {
    PreviewChimesAreRunChimes(None, notified, ps);
    ChimeOncePerGoal(notified, EffectRuns(None, ps));
  }

  /** Previewing goal 1 at 100 and then goal 2 at 100 chimes for goal 1 only:
      the previewed value stays 100, so the effect does not run again,
      although goal 2 was never celebrated. One effect run per preview would
      chime for both. */
  lemma SecondGoalSilent()
    ensures PreviewChimes(None, {}, [Some(Preview(1, 100)), Some(Preview(2, 100))]) == [1]
    ensures Chimes({}, [Some(Preview(1, 100)), Some(Preview(2, 100))]) == [1, 2]
  {
  }

  /** Within a session the sound plays at most once per goal, never for a goal
      already celebrated, and only for goals shown at 100. */
  lemma {:induction false} ChimeOncePerGoal(notified: set<int>, ps: seq<Option<Preview>>)
    ensures var cs := Chimes(notified, ps);
      && (forall i, j :: 0 <= i < j < |cs| ==> cs[i] != cs[j])
      && (forall id :: id in cs ==> id !in notified)
      && (forall id :: id in cs ==> Some(Preview(id, 100)) in ps)
    decreases |ps|
  {
    if |ps| > 0 {
      var c := ChimeStep(notified, ps[0]);
      ChimeOncePerGoal(c.notified, ps[1..]);
      var rest := Chimes(c.notified, ps[1..]);
      var head: seq<int> := if c.play then [ps[0].value.id] else [];
      var cs := head + rest;
      assert cs == Chimes(notified, ps);
      forall id | id in rest ensures Some(Preview(id, 100)) in ps {
        assert Some(Preview(id, 100)) in ps[1..];
      }
      if c.play {
        assert ps[0] == Some(Preview(ps[0].value.id, 100));
        forall i, j | 0 <= i < j < |cs| ensures cs[i] != cs[j] {
          if i == 0 {
            assert cs[j] == rest[j - 1];
          } else {
            assert cs[i] == rest[i - 1] && cs[j] == rest[j - 1];
          }
        }
      }
    }
  }

  function IdOf(g: GoalItem): int {
    g.id
  }

  /** An accepted description edit of goal `id`. */
  function EditDescription(v: ById.View<GoalItem>, id: int, description: string): (r: ById.View<GoalItem>)
    ensures |r.items| == |v.items| && |r.results| == |v.results|
    ensures forall i :: 0 <= i < |v.items| ==>
      r.items[i] == if v.items[i].id == id then v.items[i].(description := description) else v.items[i]
    ensures forall i :: 0 <= i < |v.results| ==>
      r.results[i] == if v.results[i].id == id then v.results[i].(description := description) else v.results[i]
  {
    ById.UpdateView(v, IdOf, id, (g: GoalItem) => g.(description := description))
  }

  /** An accepted advance of goal `id` to `value`. */
  function Advance(v: ById.View<GoalItem>, id: int, value: int): (r: ById.View<GoalItem>)
    ensures |r.items| == |v.items| && |r.results| == |v.results|
    ensures forall i :: 0 <= i < |v.items| ==>
      r.items[i] == if v.items[i].id == id then v.items[i].(currentValue := value) else v.items[i]
    ensures forall i :: 0 <= i < |v.results| ==>
      r.results[i] == if v.results[i].id == id then v.results[i].(currentValue := value) else v.results[i]
  {
    ById.UpdateView(v, IdOf, id, (g: GoalItem) => g.(currentValue := value))
  }

  /** An accepted delete of goal `id`; an emptied list says it looks empty. */
  function DeleteGoal(v: ById.View<GoalItem>, id: int): (r: ById.View<GoalItem>)
    ensures forall g :: g in r.items <==> g in v.items && g.id != id
    ensures forall g :: g in r.results <==> g in v.results && g.id != id
    ensures r.searching <==> v.searching && exists g :: g in v.results && g.id != id
    ensures r.notice == "Parece que tu lista está vacía" <==> forall g :: g in v.items ==> g.id == id
    ensures r.notice != "Parece que tu lista está vacía" ==> r.notice == ""
    ensures ById.KeepsOrder(r.items, v.items, IdOf, id) && ById.KeepsOrder(r.results, v.results, IdOf, id)
  {
    ById.DeleteFromView(v, IdOf, id, "Parece que tu lista está vacía")
  }
}
