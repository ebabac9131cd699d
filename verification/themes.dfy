/** The application's colour themes: the fixed list, the theme restored from
    storage at start-up and the toggle that steps through the list. The
    stepping is defined and proved for any list of distinct names, then
    applied to the theme list. */
module Themes {
  import opened Wrappers

  const Themes: seq<string> := [
    "default", "amethyst-haze", "bubblegum", "candyland", "catppuccin",
    "violet-bloom", "retro-arcade", "Tangerine", "Nature", "caffeine",
    "claude", "cosmic-night", "graphite", "twitter", "vintage-paper",
    "sunset-horizon", "neo-brutalism", "t3-chat", "pastel-dreams", "soft-pop"
  ]

  const DefaultTheme: string := "default"

  predicate Distinct<T(==)>(list: seq<T>) {
    forall i, j :: 0 <= i < j < |list| ==> list[i] != list[j]
  }

  /** `list.indexOf(name)`: the first position of the name, -1 when it is not
      in the list. */
  function IndexOf<T(==)>(list: seq<T>, name: T): (i: int)
    ensures -1 <= i < |list|
    ensures i == -1 <==> name !in list
    ensures i >= 0 ==> list[i] == name && forall j :: 0 <= j < i ==> list[j] != name
  {
    FindFrom(list, name, 0)
  }

  function FindFrom<T(==)>(list: seq<T>, name: T, from: nat): (i: int)
    requires from <= |list|
    ensures -1 <= i < |list|
    ensures i == -1 <==> forall j :: from <= j < |list| ==> list[j] != name
    ensures i >= 0 ==> from <= i && list[i] == name && forall j :: from <= j < i ==> list[j] != name
    decreases |list| - from
  {
    if from == |list| then -1
    else if list[from] == name then from
    else FindFrom(list, name, from + 1)
  }

  /** The name after the given one, wrapping round; a name not in the list
      steps to the first. */
  function Step<T(==)>(list: seq<T>, name: T): (r: T)
    requires |list| > 0
    ensures r in list
    ensures name !in list ==> r == list[0]
  {
    var i := IndexOf(list, name);
    list[if i + 1 == |list| then 0 else i + 1]
  }

  /** `Step` is the source's `list[(list.indexOf(name) + 1) % list.length]`. */
  lemma StepIsModulo<T>(list: seq<T>, name: T)
    requires |list| > 0
    ensures Step(list, name) == list[(IndexOf(list, name) + 1) % |list|]
  {
    NextIndex(IndexOf(list, name), |list|);
  }

  /** Stepping a position round a list of n places. */
  lemma NextIndex(i: int, n: int)
    requires 0 < n && -1 <= i < n
    ensures (i + 1) % n == if i + 1 == n then 0 else i + 1
  {
  }

  function Steps<T(==)>(list: seq<T>, name: T, n: nat): T
    requires |list| > 0
    decreases n
  {
    if n == 0 then name else Steps(list, Step(list, name), n - 1)
  }

  /** In a list of distinct names, the step from position i goes to position
      i + 1, and from the last position back to the first. */
  lemma StepAt<T>(list: seq<T>, i: nat)
    requires Distinct(list) && i < |list|
    ensures Step(list, list[i]) == list[if i + 1 == |list| then 0 else i + 1]
  {
    assert IndexOf(list, list[i]) == i;
  }

  /** Steps compose: a steps then b more are a + b steps. */
  lemma {:induction false} StepsAdd<T>(list: seq<T>, name: T, a: nat, b: nat)
    requires |list| > 0
    ensures Steps(list, name, a + b) == Steps(list, Steps(list, name, a), b)
    decreases a
  {
    if a > 0 {
      StepsAdd(list, Step(list, name), a - 1, b);
    }
  }

  /** Short of the end of the list, n steps move n places forward. */
  lemma {:induction false} StepsForward<T>(list: seq<T>, i: nat, n: nat)
    requires Distinct(list) && i + n < |list|
    ensures Steps(list, list[i], n) == list[i + n]
    decreases n
  {
    if n > 0 {
      StepAt(list, i);
      StepsForward(list, i + 1, n - 1);
    }
  }

  /** From any listed name, the steps up to the end of the list bring the
      first name back. */
  lemma {:induction false} StepsToStart<T>(list: seq<T>, i: nat)
    requires Distinct(list) && i < |list|
    ensures Steps(list, list[i], |list| - i) == list[0]
    decreases |list| - i
  {
    StepAt(list, i);
    if i + 1 < |list| {
      StepsToStart(list, i + 1);
    }
  }

  /** A full turn: as many steps as the list is long bring any listed name
      back. */
  lemma FullTurn<T>(list: seq<T>, i: nat)
    requires Distinct(list) && i < |list|
    ensures Steps(list, list[i], |list|) == list[i]
  {
    StepsToStart(list, i);
    StepsAdd(list, list[i], |list| - i, i);
    StepsForward(list, 0, i);
  }

  /** `localStorage.getItem("theme") || defaultTheme`: a missing or empty
      value restores the default theme; any other value is kept as it is. */
  function LoadTheme(saved: Option<string>): (t: string)
    ensures saved.None? || saved == Some("") ==> t == DefaultTheme
    ensures saved.Some? && saved.value != "" ==> t == saved.value
  {
    match saved
    case None => DefaultTheme
    case Some(s) => if s == "" then DefaultTheme else s
  }

  /** `handleToggleTheme`: the theme after the current one in the list. */
  function Toggle(theme: string): (r: string)
    ensures r in Themes
    ensures theme !in Themes ==> r == DefaultTheme
  {
    Step(Themes, theme)
  }

  /** The twenty themes are distinct. */
  lemma ThemesDistinct()
    ensures |Themes| == 20 && Distinct(Themes)
  {
  }

  /** From the i-th theme the toggle goes to the next, and from the last back
      to the default. */
  lemma ToggleStep(i: nat)
    requires i < |Themes|
    ensures Toggle(Themes[i]) == Themes[if i == 19 then 0 else i + 1]
  {
    ThemesDistinct();
    StepAt(Themes, i);
  }

  /** Twenty toggles bring back any listed theme, and any theme at all comes
      back after its first toggle and twenty more. */
  lemma TwentyToggles(theme: string)
    ensures theme in Themes ==> Steps(Themes, theme, 20) == theme
    ensures Steps(Themes, Toggle(theme), 20) == Toggle(theme)
  {
    ThemesDistinct();
    if theme in Themes {
      FullTurn(Themes, IndexOf(Themes, theme));
    }
    FullTurn(Themes, IndexOf(Themes, Toggle(theme)));
  }
}
