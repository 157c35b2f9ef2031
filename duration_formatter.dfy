/// The duration text on the recording screen (app/.../scribely/ui/utils/DurationFormatter.kt):
/// milliseconds to "MM:SS" with Kotlin's `Long` division and remainder, which truncate toward
/// zero, and Java's `%02d`.
module DurationFormatter {
  import opened JsCore

  /** Kotlin's `/` on integers: the quotient rounded toward zero. */
  function TruncDiv(a: int, b: int): (q: int)
    requires b > 0
    ensures a >= 0 ==> q == a / b
    ensures a < 0 ==> q == -((-a) / b)
  {
    if a >= 0 then a / b else -((-a) / b)
  }

  /** Kotlin's `%` on integers: what is left after `TruncDiv`, with the sign of `a`. */
  function TruncRem(a: int, b: int): (r: int)
    requires b > 0
    ensures a == b * TruncDiv(a, b) + r
    ensures a >= 0 ==> 0 <= r < b
    ensures a < 0 ==> -b < r <= 0
  {
    a - b * TruncDiv(a, b)
  }

  /** Java's `%02d`: at least two characters, zero-padded after any sign. */
  function Format02(n: int): (r: string)
    ensures |r| >= 2
    ensures n >= 0 ==> (forall i :: 0 <= i < |r| ==> IsDigit(r[i])) && DigitsValue(r) == n
    ensures 0 <= n < 100 ==> |r| == 2
    ensures n < 0 ==> r == "-" + NatToString(-n)
  {
    if n < 0 then
      "-" + NatToString(-n)
    else if n < 10 then
      DigitsValueOfNatToString(n);
      LeadingZero(NatToString(n));
      "0" + NatToString(n)
    else
      DigitsValueOfNatToString(n);
      NatToString(n)
  }

  /** A leading zero does not change a digit string's value. */
  lemma {:induction false} LeadingZero(d: string)
    requires forall i :: 0 <= i < |d| ==> IsDigit(d[i])
    ensures forall i :: 0 <= i < |"0" + d| ==> IsDigit(("0" + d)[i])
    ensures DigitsValue("0" + d) == DigitsValue(d)
    decreases |d|
  {
    if d != [] {
      LeadingZero(d[..|d| - 1]);
      assert ("0" + d)[..|"0" + d| - 1] == "0" + d[..|d| - 1];
    }
  }

  /** `formatDuration`: whole seconds, then minutes and seconds of a minute, as "%02d:%02d". */
  function FormatDuration(milliseconds: int): (r: string)
    ensures ':' in r
    ensures milliseconds >= 0 ==> |r| >= 5 && r[|r| - 3] == ':'
  {
    var totalSeconds := TruncDiv(milliseconds, 1000);
    var minutes := TruncDiv(totalSeconds, 60);
    var seconds := TruncRem(totalSeconds, 60);
    Format02(minutes) + ":" + Format02(seconds)
  }

  /** The minutes field: everything before the last ':'. */
  function MinutesField(text: string): string
    requires |text| >= 3
  {
    text[..|text| - 3]
  }

  /** The seconds field: the last two characters. */
  function SecondsField(text: string): string
    requires |text| >= 3
  {
    text[|text| - 2..]
  }

  /** For a duration that is not negative the text is "MM:SS": two digits of seconds in
      00..59 after the colon, and at least two digits of minutes before it, not capped at
      59; reading both back gives the whole seconds, milliseconds dropped. */
  lemma FormatDurationReadsBack(milliseconds: int)
    requires milliseconds >= 0
    ensures var r := FormatDuration(milliseconds);
            |r| >= 5 && r[|r| - 3] == ':'
            && (forall i :: 0 <= i < |SecondsField(r)| ==> IsDigit(SecondsField(r)[i]))
            && (forall i :: 0 <= i < |MinutesField(r)| ==> IsDigit(MinutesField(r)[i]))
            && |MinutesField(r)| >= 2
            && DigitsValue(SecondsField(r)) < 60
            && DigitsValue(MinutesField(r)) * 60 + DigitsValue(SecondsField(r)) == milliseconds / 1000
  {
    var totalSeconds := milliseconds / 1000;
    var m := Format02(totalSeconds / 60);
    var s := Format02(totalSeconds % 60);
    var r := FormatDuration(milliseconds);
    assert r == m + ":" + s;
    assert MinutesField(r) == m;
    assert SecondsField(r) == s;
  }

  /** Milliseconds are dropped, not rounded: every instant of one second reads the same. */
  lemma SameSecondSameText(a: int, b: int)
    requires 0 <= a && 0 <= b && a / 1000 == b / 1000
    ensures FormatDuration(a) == FormatDuration(b)
  {
  }

  /** An hour reads "60:00": the minutes are not wrapped into hours. */
  lemma AnHourIsSixtyMinutes()
    ensures FormatDuration(3600000) == "60:00"
  {
    assert TruncDiv(3600000, 1000) == 3600;
    assert NatToString(60) == "60";
    assert NatToString(0) == "0";
  }

  /** A negative duration keeps its sign in both fields: -61 s reads "-1:-1". */
  lemma NegativeDurationSignsBothFields()
    ensures FormatDuration(-61000) == "-1:-1"
  {
    assert TruncDiv(-61000, 1000) == -61;
    assert TruncDiv(-61, 60) == -1;
    assert TruncRem(-61, 60) == -1;
    assert NatToString(1) == "1";
  }
}
