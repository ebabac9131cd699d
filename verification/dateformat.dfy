/** `formatDateWithoutTimezoneShift`, written out identically in the task,
    goal and phrase views: the date part of an ISO string (everything before
    the first "T") is split on "-" and shown as `D mon YYYY`, the day read with
    `parseInt` and the month named by its Spanish abbreviation. No `Date` is
    built, so the shown day never moves with the time zone. */
module DateFormat {
  import opened Wrappers
  import opened Text

  const Months: seq<string> :=
    ["ene", "feb", "mar", "abr", "may", "jun", "jul", "ago", "sep", "oct", "nov", "dic"]

  /** The leading decimal digits of `s`. */
  function DigitPrefix(s: string): (p: string)
    ensures AllDigits(p) && p <= s
    ensures |p| < |s| ==> !IsDigit(s[|p|])
    decreases |s|
  {
    if |s| == 0 || !IsDigit(s[0]) then "" else [s[0]] + DigitPrefix(s[1..])
  }

  /** `parseInt(x)` on a string without leading blanks or sign: the value of its
      leading digits, NaN (`None`) when it does not start with a digit. An absent
      piece (`undefined`) reads as NaN. */
  function ParseInt(x: Option<string>): (n: Option<nat>)
    ensures n.Some? <==> x.Some? && |x.value| > 0 && IsDigit(x.value[0])
  {
    match x
    case None => None
    case Some(s) =>
      var p := DigitPrefix(s);
      if p == "" then None else Some(DigitsValue(p))
  }

  /** A number as a template literal shows it; NaN shows as "NaN". */
  function NumberText(n: Option<nat>): (r: string)
    ensures n.None? <==> r == "NaN"
  {
    match n
    case None => "NaN"
    case Some(v) => NatToString(v)
  }

  /** `meses[month - 1]`: "undefined" for any month outside 1..12. */
  function MonthName(month: Option<nat>): (r: string)
    ensures month.Some? && 1 <= month.value <= 12 <==> r in Months
  {
    if month.Some? && 1 <= month.value <= 12 then Months[month.value - 1] else "undefined"
  }

  /** Array destructuring: a missing position is `undefined`. */
  function Piece(parts: seq<string>, i: nat): (r: Option<string>)
    ensures r.Some? <==> i < |parts|
  {
    if i < |parts| then Some(parts[i]) else None
  }

  /** `formatDateWithoutTimezoneShift`: the shown text ends with the year
      piece as written, after a blank. */
  function FormatDate(dateStr: string): (r: string)
    ensures var year := Split(Split(dateStr, 'T')[0], '-')[0];
      |year| < |r| && r[|r| - |year| - 1..] == " " + year
  {
    var parts := Split(Split(dateStr, 'T')[0], '-');
    var head := NumberText(ParseInt(Piece(parts, 2))) + " " + MonthName(ParseInt(Piece(parts, 1)));
    assert (head + " " + parts[0])[|head|..] == " " + parts[0];
    head + " " + parts[0]
  }

  /** The time part after "T" plays no role: a date and a timestamp of that
      date are shown alike. */
  lemma FormatDateIgnoresTime(date: string, time: string)
    requires 'T' !in date
    ensures FormatDate(date + "T" + time) == FormatDate(date)
  {
    SplitAt(date, 'T', time);
    SplitWithout(date, 'T');
  }

  /** A leading zero does not change the value of a digit string. */
  lemma {:induction false} LeadingZero(s: string)
    requires AllDigits(s)
    ensures AllDigits(['0'] + s) && DigitsValue(['0'] + s) == DigitsValue(s)
    decreases |s|
  {
    var z := ['0'] + s;
    if |s| > 0 {
      assert z[..|z| - 1] == ['0'] + s[..|s| - 1];
      LeadingZero(s[..|s| - 1]);
    }
  }

  lemma {:induction false} DigitPrefixAll(s: string)
    requires AllDigits(s)
    ensures DigitPrefix(s) == s
    decreases |s|
  {
    if |s| > 0 {
      DigitPrefixAll(s[1..]);
    }
  }

  /** `parseInt` of a zero-padded two-digit rendering gives the number back. */
  lemma ParsePadded(n: nat)
    ensures AllDigits(PadTwo(NatToString(n)))
    ensures ParseInt(Some(PadTwo(NatToString(n)))) == Some(n)
  {
    var s := NatToString(n);
    var p := PadTwo(s);
    NatToStringRoundTrip(n);
    if |s| == 1 {
      LeadingZero(s);
    }
    DigitPrefixAll(p);
  }

  /** Three pieces joined by "-" split back into the same three pieces. */
  lemma SplitThree(a: string, b: string, c: string)
    requires '-' !in a && '-' !in b && '-' !in c
    ensures Split(a + "-" + b + "-" + c, '-') == [a, b, c]
  {
    assert a + "-" + b + "-" + c == a + ['-'] + (b + ['-'] + c);
    SplitAt(a, '-', b + ['-'] + c);
    SplitAt(b, '-', c);
    SplitWithout(c, '-');
  }

  /** A character that is not a digit does not occur in a digit string. */
  lemma NotInDigits(s: string, c: char)
    requires AllDigits(s) && !IsDigit(c)
    ensures c !in s
  {
  }

  /** The shown text of a date without time part, read off its three pieces. */
  lemma FormatDateOfPieces(s: string, year: string, month: string, day: string)
    requires 'T' !in s
    requires Split(s, '-') == [year, month, day]
    ensures FormatDate(s) == NumberText(ParseInt(Some(day))) + " " + MonthName(ParseInt(Some(month))) + " " + year
  {
    SplitWithout(s, 'T');
  }

  /** The shown text of `YYYY-MM-DD` whose month and day pieces are digit
      strings read as `month` and `day`. */
  lemma FormatDateOfDigits(year: string, ms: string, ds: string, month: nat, day: nat)
    requires 1 <= month <= 12
    requires '-' !in year && 'T' !in year
    requires AllDigits(ms) && AllDigits(ds)
    requires ParseInt(Some(ms)) == Some(month) && ParseInt(Some(ds)) == Some(day)
    ensures FormatDate(year + "-" + ms + "-" + ds) == NatToString(day) + " " + Months[month - 1] + " " + year
  {
    NotInDigits(ms, '-');
    NotInDigits(ms, 'T');
    NotInDigits(ds, '-');
    NotInDigits(ds, 'T');
    var s := year + "-" + ms + "-" + ds;
    assert 'T' !in s;
    SplitThree(year, ms, ds);
    FormatDateOfPieces(s, year, ms, ds);
  }

  /** A date `YYYY-MM-DD` (month and day zero-padded) is shown as the day
      without its leading zero, the month's abbreviation and the year as
      written. */
  lemma FormatDateOfDay(year: string, month: nat, day: nat)
    requires 1 <= month <= 12
    requires '-' !in year && 'T' !in year
    ensures FormatDate(year + "-" + PadTwo(NatToString(month)) + "-" + PadTwo(NatToString(day)))
      == NatToString(day) + " " + Months[month - 1] + " " + year
  {
    ParsePadded(month);
    ParsePadded(day);
    FormatDateOfDigits(year, PadTwo(NatToString(month)), PadTwo(NatToString(day)), month, day);
  }

  /** A date part with fewer than three "-"-separated pieces has no day, and
      the shown text starts with "NaN". */
  lemma FormatDateWithoutDay(dateStr: string)
    requires |Split(Split(dateStr, 'T')[0], '-')| < 3
    ensures FormatDate(dateStr)[..4] == "NaN "
  {
  }
}
