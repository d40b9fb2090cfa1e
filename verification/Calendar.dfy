/** Calendar dates as text: `YYYY-MM-DD`. */
module Calendar {
  import opened Digits
  import opened CivilDate

  /** Four, two and two ASCII digits between hyphens. */
  predicate IsYmd(s: string) {
    |s| == 10 && s[4] == '-' && s[7] == '-' && AllDigits(s[..4]) && AllDigits(s[5..7]) && AllDigits(s[8..])
  }

  function Parts(s: string): Civil
    requires IsYmd(s)
  {
    Civil(Value(s[..4]), Value(s[5..7]), Value(s[8..]))
  }

  /** A date of the right form that the calendar has. */
  predicate IsCalendarDate(s: string) {
    IsYmd(s) && IsCivil(Parts(s))
  }
}
