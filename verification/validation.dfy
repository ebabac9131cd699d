/** The login form's blank-field checks: a field is in error when
    `String.prototype.trim` leaves nothing of it. `trim` removes the white
    space and line terminators of sections 12.2 and 12.3 of ECMA-262 from both
    ends, so a field is blank exactly when every character is one of them. */
module Validation {

  /** WhiteSpace (section 12.2 of ECMA-262: tab, vertical tab, form feed,
      space, no-break space, zero width no-break space and the Unicode "Zs"
      characters) or LineTerminator (section 12.3: line feed, carriage
      return, line separator, paragraph separator). */
  predicate IsTrimmed(c: char) {
    || ('\U{9}' <= c <= '\U{D}')
    || c == '\U{20}' || c == '\U{A0}' || c == '\U{1680}'
    || ('\U{2000}' <= c <= '\U{200A}')
    || c == '\U{2028}' || c == '\U{2029}' || c == '\U{202F}' || c == '\U{205F}'
    || c == '\U{3000}' || c == '\U{FEFF}'
  }

  /** The first position at or after `from` that holds no blank, or the length
      when there is none. */
  function SkipBlanks(s: string, from: nat): (r: nat)
    requires from <= |s|
    ensures from <= r <= |s|
    ensures forall i :: from <= i < r ==> IsTrimmed(s[i])
    ensures r < |s| ==> !IsTrimmed(s[r])
    decreases |s| - from
  {
    if from == |s| || !IsTrimmed(s[from]) then from else SkipBlanks(s, from + 1)
  }

  /** The end of `s[lo..hi]` once its trailing blanks are dropped. */
  function SkipBlanksBack(s: string, lo: nat, hi: nat): (r: nat)
    requires lo <= hi <= |s|
    ensures lo <= r <= hi
    ensures forall i :: r <= i < hi ==> IsTrimmed(s[i])
    ensures r > lo ==> !IsTrimmed(s[r - 1])
    decreases hi - lo
  {
    if hi == lo || !IsTrimmed(s[hi - 1]) then hi else SkipBlanksBack(s, lo, hi - 1)
  }

  /** `s.trim()` */
  function Trim(s: string): string {
    var b := SkipBlanks(s, 0);
    s[b..SkipBlanksBack(s, b, |s|)]
  }

  /** `validateLoginUsername`: true (an error) when the trimmed name is empty. */
  function UsernameError(username: string): (e: bool)
    ensures username == "" ==> e
    ensures e ==> username == "" || (IsTrimmed(username[0]) && IsTrimmed(username[|username| - 1]))
  {
    Trim(username) == ""
  }

  /** `validateLoginPassword`, the same test on the password. */
  function PasswordError(password: string): (e: bool)
    ensures e <==> UsernameError(password)
    ensures e ==> password == "" || (IsTrimmed(password[0]) && IsTrimmed(password[|password| - 1]))
  {
    Trim(password) == ""
  }

  /** A field is in error exactly when all its characters are white space or
      line terminators, and the password check answers as the username check
      does; in particular the empty field is in error. */
  lemma BlankIffAllTrimmed(s: string)
    ensures UsernameError(s) <==> forall i :: 0 <= i < |s| ==> IsTrimmed(s[i])
    ensures PasswordError(s) == UsernameError(s)
    ensures UsernameError("")
  {
    var b := SkipBlanks(s, 0);
    var e := SkipBlanksBack(s, b, |s|);
    if !forall i :: 0 <= i < |s| ==> IsTrimmed(s[i]) {
      var k :| 0 <= k < |s| && !IsTrimmed(s[k]);
      assert b <= k < e;
      assert |Trim(s)| == e - b;
    }
  }

  /** What `trim` leaves is the one segment of the input with only blanks
      before and after it and no blank at either of its ends. */
  lemma TrimSegment(s: string, b: nat, e: nat)
    requires b <= e <= |s|
    requires forall i :: 0 <= i < b ==> IsTrimmed(s[i])
    requires forall i :: e <= i < |s| ==> IsTrimmed(s[i])
    requires b < e ==> !IsTrimmed(s[b]) && !IsTrimmed(s[e - 1])
    ensures Trim(s) == s[b..e]
  {
    var b' := SkipBlanks(s, 0);
    var e' := SkipBlanksBack(s, b', |s|);
    if b < e {
      assert b' == b;
      assert e' == e;
    } else {
      assert b' == |s|;
    }
  }

  /** What `trim` leaves has no blank at either end, so trimming again
      changes nothing. */
  lemma TrimIdempotent(s: string)
    ensures var t := Trim(s); |t| > 0 ==> !IsTrimmed(t[0]) && !IsTrimmed(t[|t| - 1])
    ensures Trim(Trim(s)) == Trim(s)
  {
    var t := Trim(s);
    var b := SkipBlanks(s, 0);
    var e := SkipBlanksBack(s, b, |s|);
    if |t| > 0 {
      assert t[0] == s[b] && t[|t| - 1] == s[e - 1];
    }
    TrimSegment(t, 0, |t|);
  }
}
