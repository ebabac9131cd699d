/** `generateGoalMessages`: the motivational messages of the goal view. Four
    filters over the goals (progress today, stalled, expiring, completed
    lately) each contribute one message about the first goal they keep; a
    summary with the number of goals follows; then one message per unit of the
    unit table that some goal has reached. Messages with the same text are
    merged the way a JavaScript `Map` keyed by text merges them, and the result
    is shuffled.

    `now` and every goal instant are milliseconds. `Math.random` is not
    modelled as a function: the message a unit contributes is chosen by a pick
    index passed in, and the shuffle is any permutation (`IsOutput`). */
module GoalMessages {
  import opened Wrappers
  import opened Text

  /** Milliseconds in a day. */
  const Day := 86400000

  /** A goal as the generator reads it: `end` and `updated` are the instants of
      `end_date` and `updated_at`. */
  datatype Goal = Goal(id: int, name: string, currentValue: int, unit: string, end: int, updated: int)

  datatype Message = Message(text: string, highlight: Option<string>)

  /** `Math.floor(ms / DAY)`: whole days, rounded down also for negative spans. */
  function FloorDays(ms: int): (d: int)
    ensures d * Day <= ms < (d + 1) * Day
  {
    ms / Day
  }

  /** The four goal filters. */
  datatype Rule = ProgressRule | StalledRule | ExpiringRule | CompletedRule

  /** Whether goal `g` passes filter `rule` at instant `now`. The stalled and
      expiring filters divide by `DAY` without rounding, so they compare the
      millisecond spans with whole multiples of a day. */
  predicate Holds(rule: Rule, g: Goal, now: int)
    ensures rule == ProgressRule ==> (Holds(rule, g, now) <==> 0 <= now - g.updated < Day)
    ensures rule == StalledRule && Holds(rule, g, now) ==> FloorDays(now - g.updated) >= 3
    ensures rule == ExpiringRule && Holds(rule, g, now) ==> g.end > now
  {
    match rule
    case ProgressRule => FloorDays(now - g.updated) == 0
    case StalledRule => now - g.updated >= 3 * Day
    case ExpiringRule => 0 < g.end - now <= 7 * Day
    case CompletedRule => g.currentValue >= 100 && now - g.updated <= 7 * Day
  }

  /** `goals.filter(...)` for one rule. */
  function Filter(goals: seq<Goal>, rule: Rule, now: int): (r: seq<Goal>)
    ensures |r| <= |goals|
    ensures forall g :: g in r <==> g in goals && Holds(rule, g, now)
    decreases |goals|
  {
    if |goals| == 0 then []
    else (if Holds(rule, goals[0], now) then [goals[0]] else []) + Filter(goals[1..], rule, now)
  }

  /** `i` is the position of the first goal that passes `rule`. */
  predicate FirstMatch(goals: seq<Goal>, rule: Rule, now: int, i: int) {
    && 0 <= i < |goals|
    && Holds(rule, goals[i], now)
    && forall j :: 0 <= j < i ==> !Holds(rule, goals[j], now)
  }

  /** The head of a filtered list is the first goal that passes the filter. */
  lemma {:induction false} FilterHead(goals: seq<Goal>, rule: Rule, now: int)
    requires |Filter(goals, rule, now)| > 0
    ensures exists i :: FirstMatch(goals, rule, now, i) && Filter(goals, rule, now)[0] == goals[i]
    decreases |goals|
  {
    if !Holds(rule, goals[0], now) {
      FilterHead(goals[1..], rule, now);
      var i :| FirstMatch(goals[1..], rule, now, i) && Filter(goals[1..], rule, now)[0] == goals[1..][i];
      assert FirstMatch(goals, rule, now, i + 1);
    } else {
      assert FirstMatch(goals, rule, now, 0);
    }
  }

  /** What a message says, before it is worded. */
  datatype Kind =
    | Progress(goalName: string)
    | Stalled(days: int)
    | Expiring(goalName: string)
    | CompletedRecently(goalName: string)
    | Summary(count: nat)
    | UnitNote(unit: string, note: string)

  /** The message a filter contributes about goal `g`; a stalled goal is
      reported with its whole days since its last update. */
  function KindOf(rule: Rule, g: Goal, now: int): Kind {
    match rule
    case ProgressRule => Progress(g.name)
    case StalledRule => Stalled(FloorDays(now - g.updated))
    case ExpiringRule => Expiring(g.name)
    case CompletedRule => CompletedRecently(g.name)
  }

  /** The filter a message kind comes from, if any. */
  function Source(k: Kind): Option<Rule> {
    match k
    case Progress(_) => Some(ProgressRule)
    case Stalled(_) => Some(StalledRule)
    case Expiring(_) => Some(ExpiringRule)
    case CompletedRecently(_) => Some(CompletedRule)
    case _ => None
  }

  /** One filter's contribution: a message about the first goal it keeps. */
  function RuleNote(goals: seq<Goal>, rule: Rule, now: int): (r: seq<Kind>)
    ensures |r| <= 1
    ensures forall k :: k in r ==> Source(k) == Some(rule)
  {
    var kept := Filter(goals, rule, now);
    if |kept| > 0 then [KindOf(rule, kept[0], now)] else []
  }

  /** One entry of the unit table: the unit, the value a goal must reach, and
      the messages one of which is shown. */
  datatype UnitRule = UnitRule(unit: string, min: int, notes: seq<string>)

  const Units: seq<UnitRule> := [
    UnitRule("km", 30, [
      "🏃‍♂️ Tu constancia física está dando frutos",
      "Moverte hoy es ganar salud mañana 💚",
      "Cada kilómetro suma, sigue así"]),
    UnitRule("kg", 5, [
      "⚖️ Los cambios pequeños también cuentan",
      "Tu disciplina se refleja en tu progreso",
      "Paso a paso, cuerpo fuerte 💪"]),
    UnitRule("horas", 10, [
      "⏳ El tiempo bien invertido siempre paga",
      "Cada hora te acerca a tu objetivo",
      "Constancia > intensidad"]),
    UnitRule("minutos", 60, [
      "⏱️ Un minuto hoy, un gran resultado mañana",
      "Pequeños bloques crean grandes hábitos"]),
    UnitRule("calorías", 500, [
      "🔥 Tu esfuerzo se siente, sigue cuidándote",
      "Cada decisión suma bienestar"]),
    UnitRule("sesiones", 5, [
      "📅 La constancia vence a la motivación",
      "Sesión a sesión, progreso real"]),
    UnitRule("COP", 100000, [
      "💰 Tus ahorros crecen, buen trabajo",
      "Cada peso ahorrado es tranquilidad futura"]),
    UnitRule("dólares", 50, [
      "💸 Tu disciplina financiera da resultados",
      "Invertir en ti siempre vale la pena"]),
    UnitRule("libros", 1, [
      "📚 Leer es crecer por dentro",
      "Un libro más, una mente más fuerte"]),
    UnitRule("capítulos", 5, [
      "✍️ Crear también es avanzar",
      "Capítulo a capítulo se construyen historias"]),
    UnitRule("proyectos", 1, [
      "🚀 Sacar ideas adelante no es fácil, vas bien",
      "Un proyecto activo ya es progreso"]),
    UnitRule("ventas", 1, [
      "📈 Cada venta cuenta, sigue empujando",
      "Tu esfuerzo empieza a reflejarse"]),
    UnitRule("viajes", 1, [
      "✈️ Planear viajes también es vivir",
      "Cada destino empieza con un paso"]),
    UnitRule("%", 25, [
      "📊 El progreso ya es visible",
      "Sigue así, el objetivo está cerca"]),
    UnitRule("salud", 1, [
      "💚 Cuidar tu salud es la mejor inversión",
      "Tu bienestar es prioridad, sigue así",
      "Cada acción saludable suma años de vida"])
  ]

  /** No unit appears twice in a table. */
  predicate DistinctUnits(table: seq<UnitRule>) {
    forall i, j :: 0 <= i < j < |table| ==> table[i].unit != table[j].unit
  }

  /** The application's table has fifteen entries, no unit twice. */
  lemma UnitsDistinct()
    ensures |Units| == 15 && DistinctUnits(Units)
  {
    var names := ["km", "kg", "horas", "minutos", "calorías", "sesiones", "COP", "dólares",
                  "libros", "capítulos", "proyectos", "ventas", "viajes", "%", "salud"];
    assert forall i :: 0 <= i < |Units| ==> Units[i].unit == names[i];
    assert forall i, j :: 0 <= i < j < |names| ==> names[i] != names[j];
  }

  /** The random draws of one call over a table of distinct units: for each
      entry, the index of the message `randomFrom` returns. The generator
      reads the table `Units`; the lemmas below hold for any such table. */
  predicate ValidPicks(table: seq<UnitRule>, picks: seq<nat>) {
    && DistinctUnits(table)
    && |picks| == |table|
    && forall i :: 0 <= i < |picks| ==> picks[i] < |table[i].notes|
  }

  /** `goals.some(g => g.unit === unit && g.current_value >= min)`. */
  predicate Reaches(goals: seq<Goal>, u: UnitRule) {
    exists g :: g in goals && g.unit == u.unit && g.currentValue >= u.min
  }

  /** The unit messages of the table entries from position `from` on. */
  function UnitNotes(table: seq<UnitRule>, goals: seq<Goal>, picks: seq<nat>, from: nat): (r: seq<Kind>)
    requires ValidPicks(table, picks) && from <= |table|
    ensures forall k :: k in r ==> k.UnitNote?
    decreases |table| - from
  {
    if from == |table| then []
    else
      var u := table[from];
      (if Reaches(goals, u) then [UnitNote(u.unit, u.notes[picks[from]])] else [])
        + UnitNotes(table, goals, picks, from + 1)
  }

  /** The four filters' contributions, in the order they are pushed. */
  function FilterNotes(goals: seq<Goal>, now: int): (r: seq<Kind>)
    ensures forall k :: k in r ==> Source(k).Some?
    ensures forall rule, k :: k in r && Source(k) == Some(rule) <==> k in RuleNote(goals, rule, now)
  {
    var ps, ss := RuleNote(goals, ProgressRule, now), RuleNote(goals, StalledRule, now);
    var es, cs := RuleNote(goals, ExpiringRule, now), RuleNote(goals, CompletedRule, now);
    var r := ps + ss + es + cs;
    assert forall rule, k :: k in RuleNote(goals, rule, now) ==> k in r by {
      forall rule, k | k in RuleNote(goals, rule, now) ensures k in r {
        if rule == ProgressRule { assert k in ps; }
        else if rule == StalledRule { assert k in ss; }
        else if rule == ExpiringRule { assert k in es; }
        else { assert k in cs; }
      }
    }
    r
  }

  /** The messages of one call, in the order they are pushed. */
  function Kinds(table: seq<UnitRule>, goals: seq<Goal>, now: int, picks: seq<nat>): (r: seq<Kind>)
    requires ValidPicks(table, picks)
    ensures |goals| > 0 ==> Summary(|goals|) in r
  {
    if |goals| == 0 then []
    else
      var r := FilterNotes(goals, now) + [Summary(|goals|)] + UnitNotes(table, goals, picks, 0);
      assert r[|FilterNotes(goals, now)|] == Summary(|goals|);
      r
  }

  /** The summary's text. */
  function SummaryText(count: nat): string {
    "Tienes " + NatToString(count) + " metas activas. Vas con todo 💥"
  }

  function ProgressText(name: string): string {
    "¡Genial! Has avanzado en " + name + ". Sigue así 🚀"
  }

  function StalledText(days: string): string {
    "Hace " + days + " días que no trabajas en una meta. Aún estás a tiempo 💪"
  }

  function ExpiringText(name: string): string {
    "⏰ " + name + " se vence pronto, no la dejes para después"
  }

  function CompletedText(name: string): string {
    "¡Felicidades! Has completado " + name + " 🏆"
  }

  /** `days.toString()`, with the minus sign of a negative count. */
  function IntText(n: int): string {
    if n < 0 then "-" + NatToString(-n) else NatToString(n)
  }

  /** The wording of each kind of message, with its highlighted part. */
  function Word(k: Kind): Message {
    match k
    case Progress(name) => Message(ProgressText(name), Some(name))
    case Stalled(days) => Message(StalledText(IntText(days)), Some(IntText(days)))
    case Expiring(name) => Message(ExpiringText(name), Some(name))
    case CompletedRecently(name) => Message(CompletedText(name), Some(name))
    case Summary(count) => Message(SummaryText(count), Some(NatToString(count)))
    case UnitNote(_, note) => Message(note, None)
  }

  function Words(ks: seq<Kind>): (r: seq<Message>)
    ensures |r| == |ks|
    ensures forall i :: 0 <= i < |ks| ==> r[i] == Word(ks[i])
    decreases |ks|
  {
    if |ks| == 0 then [] else [Word(ks[0])] + Words(ks[1..])
  }

  function Texts(ms: seq<Message>): set<string> {
    set m | m in ms :: m.text
  }

  predicate DistinctTexts(ms: seq<Message>) {
    forall i, j :: 0 <= i < j < |ms| ==> ms[i].text != ms[j].text
  }

  /** `map.set(m.text, m)`: an entry with the same text keeps its place and
      takes the new value; a new text is appended. */
  function Put(entries: seq<Message>, m: Message): (r: seq<Message>)
    requires DistinctTexts(entries)
    ensures DistinctTexts(r)
    ensures m in r
    ensures forall e :: e in r && e != m ==> e in entries && e.text != m.text
    ensures |r| == |entries| || r == entries + [m]
  {
    if exists i :: 0 <= i < |entries| && entries[i].text == m.text then
      var i :| 0 <= i < |entries| && entries[i].text == m.text;
      var r := entries[i := m];
      assert r[i] == m;
      assert forall e :: e in r && e != m ==> e in entries && e.text != m.text by {
        forall e | e in r && e != m
          ensures e in entries && e.text != m.text
        {
          var j :| 0 <= j < |r| && r[j] == e;
          assert j != i;
        }
      }
      r
    else
      entries + [m]
  }

  /** Putting a message adds its text and loses none. */
  lemma PutTexts(entries: seq<Message>, m: Message)
    requires DistinctTexts(entries)
    ensures Texts(Put(entries, m)) == Texts(entries) + {m.text}
  {
    var r := Put(entries, m);
    if exists i :: 0 <= i < |entries| && entries[i].text == m.text {
      var i :| 0 <= i < |entries| && entries[i].text == m.text;
      assert |r| == |entries|;
      forall t | t in Texts(entries)
        ensures t in Texts(r)
      {
        var e :| e in entries && e.text == t;
        var j :| 0 <= j < |entries| && entries[j] == e;
        if e.text == m.text {
          assert m in r;
        } else {
          assert j != i && r == entries[i := m];
          assert r[j] == e && e in r;
        }
      }
    } else {
      assert r == entries + [m];
    }
  }

  /** `Array.from(new Map(messages.map(m => [m.text, m])).values())`: one
      message per text, each message taken from the input, no text lost. */
  function Dedup(ms: seq<Message>): (r: seq<Message>)
    ensures DistinctTexts(r)
    ensures forall e :: e in r ==> e in ms
    ensures |r| <= |ms|
    decreases |ms|
  {
    if |ms| == 0 then []
    else
      var init := ms[..|ms| - 1];
      var last := ms[|ms| - 1];
      assert ms == init + [last];
      Put(Dedup(init), last)
  }

  /** Deduplication loses no text. */
  lemma {:induction false} DedupTexts(ms: seq<Message>)
    ensures Texts(Dedup(ms)) == Texts(ms)
    decreases |ms|
  {
    if |ms| > 0 {
      var init := ms[..|ms| - 1];
      var last := ms[|ms| - 1];
      assert ms == init + [last];
      assert Texts(ms) == Texts(init) + {last.text};
      DedupTexts(init);
      PutTexts(Dedup(init), last);
    }
  }

  /** For a text that occurs several times, the message kept is its last
      occurrence: it stands at or after every message with that text. */
  lemma {:induction false} DedupKeepsLast(ms: seq<Message>, e: Message, j: nat)
    requires e in Dedup(ms) && j < |ms| && ms[j].text == e.text
    ensures exists k :: j <= k < |ms| && ms[k] == e
    decreases |ms|
  {
    var init := ms[..|ms| - 1];
    if e == ms[|ms| - 1] {
      assert ms[|ms| - 1] == e;
    } else {
      DedupStep(ms, e);
      assert init[j] == ms[j];
      DedupKeepsLast(init, e, j);
      var k :| j <= k < |init| && init[k] == e;
      assert ms[k] == e;
    }
  }

  /** A kept message other than the last input was kept from the earlier
      inputs, and its text is not the last input's. */
  lemma DedupStep(ms: seq<Message>, e: Message)
    requires |ms| > 0 && e in Dedup(ms) && e != ms[|ms| - 1]
    ensures e in Dedup(ms[..|ms| - 1]) && e.text != ms[|ms| - 1].text
  {
    assert Dedup(ms) == Put(Dedup(ms[..|ms| - 1]), ms[|ms| - 1]);
  }

  /** The list the shuffle receives. */
  function Candidates(table: seq<UnitRule>, goals: seq<Goal>, now: int, picks: seq<nat>): (r: seq<Message>)
    requires ValidPicks(table, picks)
    ensures DistinctTexts(r)
    ensures Texts(r) == Texts(Words(Kinds(table, goals, now, picks)))
  {
    DedupTexts(Words(Kinds(table, goals, now, picks)));
    Dedup(Words(Kinds(table, goals, now, picks)))
  }

  /** `out` is a possible result of `generateGoalMessages(goals, now)` when the
      unit messages are drawn as `picks`: any order of the candidates. */
  predicate IsOutput(table: seq<UnitRule>, goals: seq<Goal>, now: int, picks: seq<nat>, out: seq<Message>)
    requires ValidPicks(table, picks)
    ensures IsOutput(table, goals, now, picks, out) ==> |out| == |Candidates(table, goals, now, picks)|
  {
    var c := Candidates(table, goals, now, picks);
    assert |multiset(out)| == |out| && |multiset(c)| == |c|;
    multiset(out) == multiset(c)
  }

  lemma WordsText(ks: seq<Kind>, k: Kind)
    requires k in ks
    ensures Word(k).text in Texts(Words(ks))
  {
    var i :| 0 <= i < |ks| && ks[i] == k;
    assert Words(ks)[i] == Word(k);
  }

  /** A message is in a possible output exactly when it is a candidate. */
  lemma OutputMembers(table: seq<UnitRule>, goals: seq<Goal>, now: int, picks: seq<nat>, out: seq<Message>)
    requires ValidPicks(table, picks) && IsOutput(table, goals, now, picks, out)
    ensures forall m :: m in out <==> m in Candidates(table, goals, now, picks)
  {
    var c := Candidates(table, goals, now, picks);
    forall m ensures m in out <==> m in c {
      assert m in out <==> m in multiset(out);
      assert m in c <==> m in multiset(c);
    }
  }

  /** No goals give no messages, and any goal gives at least one. */
  lemma OutputEmptyIffNoGoals(table: seq<UnitRule>, goals: seq<Goal>, now: int, picks: seq<nat>, out: seq<Message>)
    requires ValidPicks(table, picks) && IsOutput(table, goals, now, picks, out)
    ensures |goals| == 0 <==> out == []
  {
    if |goals| > 0 {
      OutputHasSummary(table, goals, now, picks, out);
    } else {
      assert Candidates(table, goals, now, picks) == [];
      assert |out| == |multiset(out)| == 0;
    }
  }

  /** Any goal gives the summary, which carries the number of goals. */
  lemma OutputHasSummary(table: seq<UnitRule>, goals: seq<Goal>, now: int, picks: seq<nat>, out: seq<Message>)
    requires ValidPicks(table, picks) && IsOutput(table, goals, now, picks, out)
    requires |goals| > 0
    ensures exists m :: m in out && m.text == SummaryText(|goals|)
  {
    var m := KindCandidate(table, goals, now, picks, Summary(|goals|));
    InPermutation(out, Candidates(table, goals, now, picks), m);
    assert Word(Summary(|goals|)).text == SummaryText(|goals|) by {
      SummaryWord(|goals|);
    }
  }

  lemma SummaryWord(n: nat)
    ensures Word(Summary(n)).text == SummaryText(n)
  {
  }

  lemma InPermutation(out: seq<Message>, c: seq<Message>, m: Message)
    requires multiset(out) == multiset(c) && m in c
    ensures m in out
  {
    assert m in multiset(c);
  }

  /** Every pushed message has its text among the candidates. */
  lemma KindCandidate(table: seq<UnitRule>, goals: seq<Goal>, now: int, picks: seq<nat>, k: Kind) returns (m: Message)
    requires ValidPicks(table, picks) && k in Kinds(table, goals, now, picks)
    ensures m in Candidates(table, goals, now, picks) && m.text == Word(k).text
  {
    var ks := Kinds(table, goals, now, picks);
    WordsText(ks, k);
    var w := Word(k).text;
    assert w in Texts(Candidates(table, goals, now, picks));
    m := TextWitness(Candidates(table, goals, now, picks), w);
  }

  /** A message carrying a text of the list. */
  lemma TextWitness(ms: seq<Message>, t: string) returns (m: Message)
    requires t in Texts(ms)
    ensures m in ms && m.text == t
  {
    m :| m in ms && m.text == t;
  }

  /** Whatever the order chosen, no two messages share a text. */
  lemma OutputDistinct(table: seq<UnitRule>, goals: seq<Goal>, now: int, picks: seq<nat>, out: seq<Message>)
    requires ValidPicks(table, picks) && IsOutput(table, goals, now, picks, out)
    ensures DistinctTexts(out)
  {
    var c := Candidates(table, goals, now, picks);
    forall i, j | 0 <= i < j < |out|
      ensures out[i].text != out[j].text
    {
      PermutedDistinct(out, c, i, j);
    }
  }

  /** Every message shown is the wording of one of the pushed messages. */
  lemma OutputFromKinds(table: seq<UnitRule>, goals: seq<Goal>, now: int, picks: seq<nat>, out: seq<Message>)
    requires ValidPicks(table, picks) && IsOutput(table, goals, now, picks, out)
    ensures forall m :: m in out ==> exists k :: k in Kinds(table, goals, now, picks) && m == Word(k)
  {
    var ks := Kinds(table, goals, now, picks);
    OutputMembers(table, goals, now, picks, out);
    forall m | m in out
      ensures exists k :: k in ks && m == Word(k)
    {
      var w := Words(ks);
      assert m in w;
      var i :| 0 <= i < |w| && w[i] == m;
      assert ks[i] in ks;
    }
  }

  /** In a list with distinct texts a text names one message. */
  lemma SameTextSame(c: seq<Message>, m1: Message, m2: Message)
    requires DistinctTexts(c) && m1 in c && m2 in c && m1.text == m2.text
    ensures m1 == m2
  {
    var a :| 0 <= a < |c| && c[a] == m1;
    var b :| 0 <= b < |c| && c[b] == m2;
  }

  /** Two positions of a permutation of a list with distinct texts hold
      different texts. */
  lemma PermutedDistinct(out: seq<Message>, c: seq<Message>, i: int, j: int)
    requires multiset(out) == multiset(c) && DistinctTexts(c)
    requires 0 <= i < j < |out|
    ensures out[i].text != out[j].text
  {
    if out[i].text == out[j].text {
      assert out[i] in multiset(c) && out[j] in multiset(c);
      SameTextSame(c, out[i], out[j]);
      assert out == out[..i] + [out[i]] + out[i + 1..];
      assert out[j] in out[i + 1..];
      assert multiset(out) == multiset(out[..i]) + multiset{out[i]} + multiset(out[i + 1..]);
      OnceInDistinct(c, out[i]);
    }
  }

  /** In a list with distinct texts every message occurs at most once. */
  lemma {:induction false} OnceInDistinct(c: seq<Message>, m: Message)
    requires DistinctTexts(c)
    ensures multiset(c)[m] <= 1
    decreases |c|
  {
    if |c| > 0 {
      assert c == [c[0]] + c[1..];
      OnceInDistinct(c[1..], m);
      if c[0] == m {
        assert m !in c[1..] by {
          forall k | 0 <= k < |c[1..]| ensures c[1..][k] != m {
            assert c[0].text != c[k + 1].text;
          }
        }
      }
    }
  }

  /** Each filter's message is present exactly when some goal passes it, and
      it is about the first goal that does; a filter never contributes two. */
  lemma RuleMessage(table: seq<UnitRule>, goals: seq<Goal>, now: int, picks: seq<nat>, rule: Rule)
    requires ValidPicks(table, picks) && |goals| > 0
    ensures (exists k :: k in Kinds(table, goals, now, picks) && Source(k) == Some(rule))
      <==> exists g :: g in goals && Holds(rule, g, now)
    ensures forall k :: k in Kinds(table, goals, now, picks) && Source(k) == Some(rule) ==>
      exists i :: FirstMatch(goals, rule, now, i) && k == KindOf(rule, goals[i], now)
  {
    var kept := Filter(goals, rule, now);
    var own := RuleNote(goals, rule, now);
    FromRule(table, goals, now, picks, rule);
    if |kept| > 0 {
      FilterHead(goals, rule, now);
      assert own[0] in Kinds(table, goals, now, picks);
    }
  }

  /** The messages of a call that come from filter `rule` are that filter's
      contribution. */
  lemma FromRule(table: seq<UnitRule>, goals: seq<Goal>, now: int, picks: seq<nat>, rule: Rule)
    requires ValidPicks(table, picks) && |goals| > 0
    ensures forall k :: k in Kinds(table, goals, now, picks) && Source(k) == Some(rule) <==> k in RuleNote(goals, rule, now)
  {
    var notes := FilterNotes(goals, now);
    var units := UnitNotes(table, goals, picks, 0);
    var tail := [Summary(|goals|)] + units;
    assert Kinds(table, goals, now, picks) == notes + tail;
    forall k | k in tail ensures Source(k).None? {
      if k != Summary(|goals|) {
        assert k in units;
      }
    }
    forall k ensures k in notes + tail && Source(k) == Some(rule) <==> k in RuleNote(goals, rule, now) {
      assert k in notes + tail <==> k in notes || k in tail;
    }
  }

  /** The number of unit messages about unit `unit`. */
  function CountUnit(ks: seq<Kind>, unit: string): nat
    decreases |ks|
  {
    if |ks| == 0 then 0
    else (if ks[0].UnitNote? && ks[0].unit == unit then 1 else 0) + CountUnit(ks[1..], unit)
  }

  lemma {:induction false} CountUnitAppend(a: seq<Kind>, b: seq<Kind>, unit: string)
    ensures CountUnit(a + b, unit) == CountUnit(a, unit) + CountUnit(b, unit)
    decreases |a|
  {
    if |a| > 0 {
      assert (a + b)[1..] == a[1..] + b;
      CountUnitAppend(a[1..], b, unit);
    } else {
      assert a + b == b;
    }
  }

  lemma {:induction false} CountUnitNone(ks: seq<Kind>, unit: string)
    requires forall k :: k in ks ==> !k.UnitNote?
    ensures CountUnit(ks, unit) == 0
    decreases |ks|
  {
    if |ks| > 0 {
      assert ks[0] in ks;
      CountUnitNone(ks[1..], unit);
    }
  }

  /** Table entries from `from` on contribute one message about the unit of
      entry `i` when `i` is among them and some goal reaches it, none
      otherwise; the message is the picked one. */
  lemma {:induction false} UnitNotesOf(table: seq<UnitRule>, goals: seq<Goal>, picks: seq<nat>, from: nat, i: nat)
    requires ValidPicks(table, picks) && from <= |table| && i < |table|
    ensures CountUnit(UnitNotes(table, goals, picks, from), table[i].unit) ==
      if from <= i && Reaches(goals, table[i]) then 1 else 0
    ensures UnitNote(table[i].unit, table[i].notes[picks[i]]) in UnitNotes(table, goals, picks, from)
      <==> from <= i && Reaches(goals, table[i])
    decreases |table| - from
  {
    if from < |table| {
      var u := table[from];
      var head: seq<Kind> := if Reaches(goals, u) then [UnitNote(u.unit, u.notes[picks[from]])] else [];
      var rest := UnitNotes(table, goals, picks, from + 1);
      UnitNotesOf(table, goals, picks, from + 1, i);
      CountUnitAppend(head, rest, table[i].unit);
      if Reaches(goals, u) {
        assert head[1..] == [];
      }
      assert UnitNotes(table, goals, picks, from) == head + rest;
    }
  }

  /** For each entry of the unit table, the call pushes at most one message
      about that unit, and pushes the picked one exactly when some goal has
      that unit and reaches the entry's minimum. */
  lemma UnitMessage(table: seq<UnitRule>, goals: seq<Goal>, now: int, picks: seq<nat>, i: nat)
    requires ValidPicks(table, picks) && i < |table|
    ensures CountUnit(Kinds(table, goals, now, picks), table[i].unit) <= 1
    ensures UnitNote(table[i].unit, table[i].notes[picks[i]]) in Kinds(table, goals, now, picks)
      <==> |goals| > 0 && exists g :: g in goals && g.unit == table[i].unit && g.currentValue >= table[i].min
  {
    UnitNotesOf(table, goals, picks, 0, i);
    if |goals| > 0 {
      var head := FilterNotes(goals, now) + [Summary(|goals|)];
      var us := UnitNotes(table, goals, picks, 0);
      assert Kinds(table, goals, now, picks) == head + us;
      CountUnitNone(head, table[i].unit);
      CountUnitAppend(head, us, table[i].unit);
      assert forall k :: k in head ==> !k.UnitNote?;
    }
  }
}
